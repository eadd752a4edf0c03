/** The URL-assignment processor: for one queued job it marks the job in
    progress, gives every item that still needs an upload a placeholder
    upload URL, marks the job completed, and reports each step. */
module Queue {
  import opened Wrappers
  import Js
  import opened JobStore

  const DEDUPLICATED := Js.Str("deduplicated")
  const UPLOADED := Js.Str("uploaded")
  const URL_READY := Js.Str("url_ready")
  const IN_PROGRESS := Js.Str("in_progress")
  const COMPLETED := Js.Str("completed")
  const DEFAULT_UPLOAD_BASE := "https://uploads.example.com/upload"

  /** `process.env.UPLOAD_BASE || DEFAULT_UPLOAD_BASE`: an unset or empty
      variable gives the default. */
  function UploadBase(env: Option<string>): (base: string)
    ensures env.Some? && env.value != "" ==> base == env.value
    ensures env.None? || env.value == "" ==> base == DEFAULT_UPLOAD_BASE
  {
    if env.Some? && env.value != "" then env.value else DEFAULT_UPLOAD_BASE
  }

  /** `${uploadBase}/${item.hash}`. */
  function UploadUrl(base: string, hash: string): string {
    base + "/" + hash
  }

  /** What the processor reports through `onUpdate`. */
  datatype Notification =
    | JobUpdate(jobId: string, status: Js.Value)
    | ItemUpdate(jobId: string, itemId: string, hash: string, status: Js.Value, uploadUrl: string)

  /** An item the processor leaves alone. */
  predicate Settled(item: JobItem) {
    item.status == DEDUPLICATED || item.status == UPLOADED
  }

  /** One item after the run: settled items are untouched, every other item
      is ready with the URL built from its hash. */
  function Processed(item: JobItem, base: string): (r: JobItem)
    ensures Settled(item) ==> r == item
    ensures !Settled(item) ==> r == item.(status := URL_READY, uploadUrl := Js.Str(UploadUrl(base, item.hash)))
    ensures r.id == item.id && r.hash == item.hash
    ensures r.status in {DEDUPLICATED, UPLOADED, URL_READY}
  {
    if Settled(item) then item
    else ApplyItemPatch(item, ItemPatch(Some(URL_READY), Some(Js.Str(UploadUrl(base, item.hash)))))
  }

  /** The items with the first `i` processed and the rest as they were. */
  function PartlyProcessed(items: seq<JobItem>, i: nat, base: string): (r: seq<JobItem>)
    ensures |r| == |items|
    ensures forall j :: 0 <= j < |items| ==> r[j] == if j < i then Processed(items[j], base) else items[j]
  {
    seq(|items|, j requires 0 <= j < |items| => if j < i then Processed(items[j], base) else items[j])
  }

  /** The job at the end of a run. */
  function Completed(job: JobRecord, base: string): (r: JobRecord)
    ensures r.id == job.id && r.fileId == job.fileId && r.createdAt == job.createdAt
    ensures r.status == COMPLETED
    ensures |r.items| == |job.items|
    ensures forall j :: 0 <= j < |job.items| ==> r.items[j] == Processed(job.items[j], base)
  {
    job.(status := COMPLETED, items := PartlyProcessed(job.items, |job.items|, base))
  }

  /** The report for an item that is not settled. */
  function ReadyNote(jobId: string, item: JobItem, base: string): Notification {
    ItemUpdate(jobId, item.id, item.hash, URL_READY, UploadUrl(base, item.hash))
  }

  /** The report for one item: nothing for a settled item. */
  function NoteFor(jobId: string, item: JobItem, base: string): seq<Notification> {
    if Settled(item) then [] else [ReadyNote(jobId, item, base)]
  }

  /** The item reports of a run, in item order. */
  function ItemNotes(jobId: string, items: seq<JobItem>, base: string): seq<Notification>
    decreases |items|
  {
    if items == [] then []
    else ItemNotes(jobId, items[..|items| - 1], base) + NoteFor(jobId, items[|items| - 1], base)
  }

  /** The items that are not settled, in item order. */
  function Unsettled(items: seq<JobItem>): (u: seq<JobItem>)
    ensures |u| <= |items|
    ensures forall k :: 0 <= k < |u| ==> u[k] in items && !Settled(u[k])
    ensures forall i :: 0 <= i < |items| && !Settled(items[i]) ==> items[i] in u
    ensures (forall i :: 0 <= i < |items| ==> !Settled(items[i])) ==> u == items
    ensures (forall i :: 0 <= i < |items| ==> Settled(items[i])) ==> u == []
    decreases |items|
  {
    if items == [] then []
    else
      var init := items[..|items| - 1];
      var last := items[|items| - 1];
      assert forall i :: 0 <= i < |init| ==> init[i] == items[i];
      assert items == init + [last];
      Unsettled(init) + (if Settled(last) then [] else [last])
  }

  /** One report per item that is not settled, in item order: report k
      names the k-th unsettled item and its URL. */
  lemma {:induction false} ItemNotesCount(jobId: string, items: seq<JobItem>, base: string)
    ensures var r := ItemNotes(jobId, items, base);
      var u := Unsettled(items);
      && |r| == |u|
      && (forall k :: 0 <= k < |u| ==> r[k] == ReadyNote(jobId, u[k], base))
    decreases |items|
  {
    if items != [] {
      var init := items[..|items| - 1];
      var last := items[|items| - 1];
      ItemNotesCount(jobId, init, base);
      var r0, u0 := ItemNotes(jobId, init, base), Unsettled(init);
      assert ItemNotes(jobId, items, base) == r0 + NoteFor(jobId, last, base);
      assert Unsettled(items) == u0 + (if Settled(last) then [] else [last]);
    }
  }

  /** `n` is a ready update naming an unsettled item of `items` and the URL
      built from that item's hash. */
  ghost predicate ReportsItem(n: Notification, jobId: string, items: seq<JobItem>, base: string) {
    && n.ItemUpdate? && n.jobId == jobId && n.status == URL_READY
    && exists i :: 0 <= i < |items| && !Settled(items[i]) && items[i].id == n.itemId
         && n.hash == items[i].hash && n.uploadUrl == UploadUrl(base, items[i].hash)
  }

  /** Every item report names an unsettled item of the job and its URL. */
  lemma {:induction false} ItemNotesShape(jobId: string, items: seq<JobItem>, base: string)
    ensures forall n :: n in ItemNotes(jobId, items, base) ==> ReportsItem(n, jobId, items, base)
    decreases |items|
  {
    if items != [] {
      var init := items[..|items| - 1];
      var last := items[|items| - 1];
      ItemNotesShape(jobId, init, base);
      forall n | n in ItemNotes(jobId, items, base)
        ensures ReportsItem(n, jobId, items, base)
      {
        if n in ItemNotes(jobId, init, base) {
          var i :| 0 <= i < |init| && !Settled(init[i]) && init[i].id == n.itemId
                   && n.hash == init[i].hash && n.uploadUrl == UploadUrl(base, init[i].hash);
          assert init[i] == items[i];
        } else {
          assert n in NoteFor(jobId, last, base);
          assert !Settled(items[|items| - 1]);
        }
      }
    }
  }

  /** Everything a run on an existing job reports, in order: in progress,
      the item reports, completed. */
  function RunNotes(jobId: string, job: JobRecord, base: string): (r: seq<Notification>)
    ensures |r| >= 2
    ensures r[0] == JobUpdate(jobId, IN_PROGRESS) && r[|r| - 1] == JobUpdate(jobId, COMPLETED)
    ensures forall k :: 0 < k < |r| - 1 ==> ReportsItem(r[k], jobId, job.items, base)
  {
    ItemNotesShape(jobId, job.items, base);
    [JobUpdate(jobId, IN_PROGRESS)] + ItemNotes(jobId, job.items, base) + [JobUpdate(jobId, COMPLETED)]
  }

  /** One more item of the loop: the processed prefix and the reports each
      grow by that item. */
  lemma StepItem(jobId: string, items: seq<JobItem>, i: nat, base: string)
    requires i < |items|
    ensures Settled(items[i]) ==> PartlyProcessed(items, i + 1, base) == PartlyProcessed(items, i, base)
    ensures !Settled(items[i]) ==>
      PartlyProcessed(items, i + 1, base) == PartlyProcessed(items, i, base)[i := Processed(items[i], base)]
    ensures ItemNotes(jobId, items[..i + 1], base) == ItemNotes(jobId, items[..i], base) + NoteFor(jobId, items[i], base)
  {
    assert items[..i + 1][..i] == items[..i];
  }

  /** The store after the status write and the first `i` item updates. */
  function Midway(job: JobRecord, i: nat, base: string): JobRecord {
    job.(status := IN_PROGRESS, items := PartlyProcessed(job.items, i, base))
  }

  /** The update the processor sends for an item. */
  function ReadyPatch(base: string, item: JobItem): ItemPatch {
    ItemPatch(Some(URL_READY), Some(Js.Str(UploadUrl(base, item.hash))))
  }

  /** Updating item `i` of the job midway, when it is not settled, gives the
      job one item further. */
  lemma PatchMidway(job: JobRecord, i: nat, base: string)
    requires i < |job.items| && !Settled(job.items[i])
    ensures PatchItem(Midway(job, i, base), i, ReadyPatch(base, job.items[i])) == Midway(job, i + 1, base)
  {
    var items := job.items;
    var mid := Midway(job, i, base);
    var p := ReadyPatch(base, items[i]);
    assert mid.items[i] == items[i];
    assert ApplyItemPatch(items[i], p) == Processed(items[i], base);
    StepItem("", items, i, base);
    assert mid.items[i := Processed(items[i], base)] == PartlyProcessed(items, i + 1, base);
  }

  /** The same step on the whole store, and no step for a settled item. */
  lemma MidwayStep(jobs0: map<string, JobRecord>, jobId: string, job: JobRecord, i: nat, base: string)
    requires i < |job.items|
    ensures Midway(job, i, base).items[i] == job.items[i]
    ensures Settled(job.items[i]) ==> Midway(job, i + 1, base) == Midway(job, i, base)
    ensures !Settled(job.items[i]) ==>
      jobs0[jobId := Midway(job, i, base)][jobId := PatchItem(Midway(job, i, base), i, ReadyPatch(base, job.items[i]))]
      == jobs0[jobId := Midway(job, i + 1, base)]
  {
    if Settled(job.items[i]) {
      StepItem("", job.items, i, base);
    } else {
      PatchMidway(job, i, base);
    }
  }

  /** A second write under the same key replaces the first. */
  lemma Overwrite<K, V>(m: map<K, V>, k: K, a: V, b: V)
    ensures m[k := a][k := b] == m[k := b]
  {
  }

  /** After the last item, the completed status write gives the job at the
      end of a run. */
  lemma FinishStep(job: JobRecord, base: string)
    ensures Midway(job, |job.items|, base).(status := COMPLETED) == Completed(job, base)
  {
  }

  /** The reports grow by the note for item `i`. */
  lemma NotesStep(jobId: string, items: seq<JobItem>, i: nat, base: string, head: seq<Notification>)
    requires i < |items|
    ensures head + ItemNotes(jobId, items[..i + 1], base) == head + ItemNotes(jobId, items[..i], base) + NoteFor(jobId, items[i], base)
  {
    StepItem(jobId, items, i, base);
  }

  /** The processor body for job `jobId`, with `uploadEnv` the `UPLOAD_BASE`
      environment variable. An unknown job is left alone and nothing is
      reported; otherwise the job ends completed with every unsettled item
      ready, and the reports come in order. */
  method ProcessJob(store: Store, jobId: string, uploadEnv: Option<string>)
    returns (done: bool, notes: seq<Notification>)
    requires store.Valid()
    modifies store
    ensures store.Valid()
    ensures jobId !in old(store.jobs) ==> !done && notes == [] && store.jobs == old(store.jobs)
    ensures jobId in old(store.jobs) ==>
      && done
      && store.jobs == old(store.jobs)[jobId := Completed(old(store.jobs)[jobId], UploadBase(uploadEnv))]
      && notes == RunNotes(jobId, old(store.jobs)[jobId], UploadBase(uploadEnv))
    ensures store.order == old(store.order) && store.nextId == old(store.nextId)
  {
    var rec := store.GetJob(jobId);
    if rec.None? {
      return false, [];
    }
    notes := RunJob(store, jobId, rec.value, uploadEnv);
    done := true;
  }

  /** The run on a job that exists: in progress, the item loop, completed. */
  method RunJob(store: Store, jobId: string, job: JobRecord, uploadEnv: Option<string>)
    returns (notes: seq<Notification>)
    requires store.Valid() && jobId in store.jobs && store.jobs[jobId] == job
    modifies store
    ensures store.Valid()
    ensures store.jobs == old(store.jobs)[jobId := Completed(job, UploadBase(uploadEnv))]
    ensures notes == RunNotes(jobId, job, UploadBase(uploadEnv))
    ensures store.order == old(store.order) && store.nextId == old(store.nextId)
  {
    ghost var base := UploadBase(uploadEnv);
    ghost var jobs0 := store.jobs[jobId := job.(status := IN_PROGRESS)];
    var _ := store.UpdateJobStatus(jobId, IN_PROGRESS);
    assert job.items == PartlyProcessed(job.items, 0, base);
    var itemNotes := RunItems(store, jobId, job, uploadEnv, jobs0);
    ghost var mid := Midway(job, |job.items|, base);
    FinishStep(job, base);
    var _ := store.UpdateJobStatus(jobId, COMPLETED);
    assert store.jobs == old(store.jobs)[jobId := Completed(job, base)] by {
      assert store.jobs == jobs0[jobId := mid][jobId := Completed(job, base)];
      Overwrite(jobs0, jobId, mid, Completed(job, base));
      Overwrite(old(store.jobs), jobId, job.(status := IN_PROGRESS), Completed(job, base));
    }
    notes := [JobUpdate(jobId, IN_PROGRESS)] + itemNotes + [JobUpdate(jobId, COMPLETED)];
  }

  /** The item loop, with the job already in progress. */
  method RunItems(store: Store, jobId: string, job: JobRecord, uploadEnv: Option<string>,
                  ghost jobs0: map<string, JobRecord>)
    returns (notes: seq<Notification>)
    requires store.Valid()
    requires store.jobs == jobs0[jobId := Midway(job, 0, UploadBase(uploadEnv))]
    modifies store
    ensures store.Valid()
    ensures store.jobs == jobs0[jobId := Midway(job, |job.items|, UploadBase(uploadEnv))]
    ensures notes == ItemNotes(jobId, job.items, UploadBase(uploadEnv))
    ensures store.order == old(store.order) && store.nextId == old(store.nextId)
  {
    ghost var base := UploadBase(uploadEnv);
    notes := [];
    for i := 0 to |job.items|
      invariant store.Valid()
      invariant store.jobs == jobs0[jobId := Midway(job, i, base)]
      invariant store.order == old(store.order) && store.nextId == old(store.nextId)
      invariant notes == ItemNotes(jobId, job.items[..i], base)
    {
      var note := ProcessItem(store, jobId, job, i, uploadEnv, jobs0);
      StepItem(jobId, job.items, i, base);
      notes := notes + note;
    }
    assert job.items[..|job.items|] == job.items;
  }

  /** One pass of the item loop: a settled item is skipped; any other item
      gets its URL in the store and one report. */
  method ProcessItem(store: Store, jobId: string, job: JobRecord, i: nat, uploadEnv: Option<string>,
                     ghost jobs0: map<string, JobRecord>)
    returns (note: seq<Notification>)
    requires store.Valid() && i < |job.items|
    requires store.jobs == jobs0[jobId := Midway(job, i, UploadBase(uploadEnv))]
    modifies store
    ensures store.Valid()
    ensures store.jobs == jobs0[jobId := Midway(job, i + 1, UploadBase(uploadEnv))]
    ensures store.order == old(store.order) && store.nextId == old(store.nextId)
    ensures note == NoteFor(jobId, job.items[i], UploadBase(uploadEnv))
  {
    ghost var base := UploadBase(uploadEnv);
    var item := job.items[i];
    MidwayStep(jobs0, jobId, job, i, base);
    if item.status == DEDUPLICATED || item.status == UPLOADED {
      return [];
    }
    var uploadBase := UploadBase(uploadEnv);
    var uploadUrl := uploadBase + "/" + item.hash;
    FindNumbered(jobId, store.jobs[jobId].items, i);
    var _ := store.UpdateJobItem(jobId, item.id, ItemPatch(Some(URL_READY), Some(Js.Str(uploadUrl))));
    note := [ItemUpdate(jobId, item.id, item.hash, URL_READY, uploadUrl)];
  }

  /** A second run on a completed job leaves it as it is: every URL depends
      only on the item's hash. */
  lemma {:induction false} CompletedIdempotent(job: JobRecord, base: string)
    ensures Completed(Completed(job, base), base) == Completed(job, base)
  {
    var once := Completed(job, base);
    assert forall j :: 0 <= j < |job.items| ==> Processed(once.items[j], base) == once.items[j];
    assert Completed(once, base).items == once.items;
  }

  /** Settled items come out of a run exactly as they went in, and no item
      comes out in any state but settled or ready. */
  lemma CompletedKeepsSettled(job: JobRecord, base: string, j: nat)
    requires j < |job.items|
    ensures Settled(job.items[j]) ==> Completed(job, base).items[j] == job.items[j]
    ensures Completed(job, base).items[j].status in {DEDUPLICATED, UPLOADED, URL_READY}
    ensures !Settled(job.items[j]) ==> Completed(job, base).items[j].uploadUrl == Js.Str(UploadUrl(base, job.items[j].hash))
  {
  }

  /** What a run ends in, as the queue sees it. */
  datatype Outcome = Skipped | Failed(error: string) | Finished

  const UPDATE_STATUS_MISSING := "TypeError: fallback.updateJobStatus is not a function"

  /** The processor as the store module exports it without a database:
      `getJob` answers, but the exported `updateJobStatus` calls a function
      the in-memory store does not export, so the first status write throws.
      Nothing is written and nothing is reported. */
  method ProcessJobAsExported(store: Store, jobId: string, uploadEnv: Option<string>)
    returns (outcome: Outcome, notes: seq<Notification>)
    requires store.Valid()
    ensures jobId !in store.jobs ==> outcome == Skipped
    ensures jobId in store.jobs ==> outcome == Failed(UPDATE_STATUS_MISSING)
    ensures notes == []
  {
    var rec := store.GetJob(jobId);
    if rec.None? {
      return Skipped, [];
    }
    return Failed(UPDATE_STATUS_MISSING), [];
  }

  /** A job with one item that needs an upload. */
  function OneItemJob(): JobRecord {
    NewJob("1", Js.Str("1"), [ItemInput("ab", Js.Undefined, Js.Undefined)], Js.Undefined, "t")
  }

  /** On that job the exported processor fails with the job still pending
      and its item without a URL, where the processor over the store's own
      updates completes it and gives the item its URL. */
  lemma ExportedProcessorStalls(base: string)
    ensures OneItemJob().status == PENDING && OneItemJob().items[0].status == NEEDS_UPLOAD
    ensures OneItemJob().items[0].uploadUrl == Js.Null
    ensures Completed(OneItemJob(), base).status == COMPLETED
    ensures Completed(OneItemJob(), base).items[0].status == URL_READY
    ensures Completed(OneItemJob(), base).items[0].uploadUrl == Js.Str(base + "/ab")
  {
    var job := OneItemJob();
    assert job.items[0] == NewItem("1", 0, ItemInput("ab", Js.Undefined, Js.Undefined));
    assert !Settled(job.items[0]);
  }
}

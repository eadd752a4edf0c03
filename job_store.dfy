/** The in-memory job store: upload jobs under sequential string ids, each
    with its per-chunk items numbered `<jobId>:<index>`, and the two updates
    the URL-assignment processor makes to them. */
module JobStore {
  import opened Wrappers
  import Js

  /** One item as `createJob` receives it. */
  datatype ItemInput = ItemInput(hash: string, status: Js.Value, uploadUrl: Js.Value)

  datatype JobItem = JobItem(id: string, hash: string, status: Js.Value, uploadUrl: Js.Value)

  datatype JobRecord = JobRecord(id: string, fileId: Js.Value, status: Js.Value, createdAt: string,
                                 items: seq<JobItem>)

  /** The fields an item update may set; `None` is a field the patch does not have. */
  datatype ItemPatch = ItemPatch(status: Option<Js.Value>, uploadUrl: Option<Js.Value>)

  const PENDING := Js.Str("pending")
  const NEEDS_UPLOAD := Js.Str("needs_upload")

  /** The id of item `i` of job `jobId`: `${jobId}:${i}`. */
  function ItemId(jobId: string, i: nat): string {
    jobId + ":" + Js.NatToString(i)
  }

  /** Item ids of two jobs whose ids are decimal counters coincide only for
      the same job and the same index: the colon sits at the same place. */
  lemma ItemIdInjective(a: string, i: nat, b: string, j: nat)
    requires Js.IsDecimal(a) && Js.IsDecimal(b)
    requires ItemId(a, i) == ItemId(b, j)
    ensures a == b && i == j
  {
    var s := ItemId(a, i);
    assert s[|a|] == ':' && s[|b|] == ':';
    assert forall x :: 0 <= x < |a| ==> s[x] == a[x] != ':';
    assert forall x :: 0 <= x < |b| ==> s[x] == b[x] != ':';
    assert a == s[..|a|] == b;
    assert Js.NatToString(i) == s[|a| + 1..] == Js.NatToString(j);
    Js.NatToStringInjective(i, j);
  }

  /** Within one job, distinct indices give distinct item ids. */
  lemma ItemIdWithinJob(jobId: string, i: nat, j: nat)
    requires ItemId(jobId, i) == ItemId(jobId, j)
    ensures i == j
  {
    var s := ItemId(jobId, i);
    assert Js.NatToString(i) == s[|jobId| + 1..] == Js.NatToString(j);
    Js.NatToStringInjective(i, j);
  }

  /** The item `createJob` builds at index `i`: a falsy status becomes
      'needs_upload' and a falsy upload URL becomes null. */
  function NewItem(jobId: string, i: nat, input: ItemInput): (r: JobItem)
    ensures r.id == ItemId(jobId, i) && r.hash == input.hash
    ensures Js.Truthy(input.status) ==> r.status == input.status
    ensures !Js.Truthy(input.status) ==> r.status == NEEDS_UPLOAD
    ensures Js.Truthy(input.uploadUrl) ==> r.uploadUrl == input.uploadUrl
    ensures !Js.Truthy(input.uploadUrl) ==> r.uploadUrl == Js.Null
  {
    JobItem(ItemId(jobId, i), input.hash,
            if Js.Truthy(input.status) then input.status else NEEDS_UPLOAD,
            Js.OrNull(input.uploadUrl))
  }

  /** Item `i` of the list carries the id of index `i` of the job. */
  ghost predicate ItemsNumbered(jobId: string, items: seq<JobItem>) {
    forall i :: 0 <= i < |items| ==> items[i].id == ItemId(jobId, i)
  }

  /** The job `createJob` builds: an absent status is 'pending', and the
      items follow the input one for one, in order. */
  function NewJob(id: string, fileId: Js.Value, items: seq<ItemInput>, status: Js.Value,
                  createdAt: string): (r: JobRecord)
    ensures r.id == id && r.fileId == fileId && r.createdAt == createdAt
    ensures status.Undefined? ==> r.status == PENDING
    ensures !status.Undefined? ==> r.status == status
    ensures |r.items| == |items|
    ensures forall i :: 0 <= i < |items| ==> r.items[i] == NewItem(id, i, items[i])
    ensures ItemsNumbered(id, r.items)
  {
    JobRecord(id, fileId, if status.Undefined? then PENDING else status, createdAt,
              seq(|items|, i requires 0 <= i < |items| => NewItem(id, i, items[i])))
  }

  /** `items.find((x) => x.id === itemId)`: the first item with that id. */
  function FindItem(items: seq<JobItem>, itemId: string): (r: Option<nat>)
    ensures r.Some? ==> r.value < |items| && items[r.value].id == itemId
    ensures r.Some? ==> forall j :: 0 <= j < r.value ==> items[j].id != itemId
    ensures r.None? ==> forall j :: 0 <= j < |items| ==> items[j].id != itemId
    decreases |items|
  {
    if items == [] then None
    else if items[0].id == itemId then Some(0)
    else
      match FindItem(items[1..], itemId)
      case None => None
      case Some(k) => Some(k + 1)
  }

  /** In a numbered item list the id of index `i` finds index `i`. */
  lemma FindNumbered(jobId: string, items: seq<JobItem>, i: nat)
    requires ItemsNumbered(jobId, items) && i < |items|
    ensures FindItem(items, ItemId(jobId, i)) == Some(i)
  {
    var r := FindItem(items, ItemId(jobId, i));
    if r.Some? {
      ItemIdWithinJob(jobId, r.value, i);
    }
  }

  /** `Object.assign(it, patch)`. */
  function ApplyItemPatch(item: JobItem, patch: ItemPatch): JobItem {
    item.(status := patch.status.GetOr(item.status), uploadUrl := patch.uploadUrl.GetOr(item.uploadUrl))
  }

  /** The job after item `k` was patched: that item takes the patch, every
      other item and every field of the job stay as they were. */
  function PatchItem(job: JobRecord, k: nat, patch: ItemPatch): (r: JobRecord)
    requires k < |job.items|
    ensures r.id == job.id && r.fileId == job.fileId && r.status == job.status && r.createdAt == job.createdAt
    ensures |r.items| == |job.items|
    ensures forall j :: 0 <= j < |job.items| && j != k ==> r.items[j] == job.items[j]
    ensures r.items[k].id == job.items[k].id && r.items[k].hash == job.items[k].hash
    ensures patch.status.Some? ==> r.items[k].status == patch.status.value
    ensures patch.status.None? ==> r.items[k].status == job.items[k].status
    ensures patch.uploadUrl.Some? ==> r.items[k].uploadUrl == patch.uploadUrl.value
    ensures patch.uploadUrl.None? ==> r.items[k].uploadUrl == job.items[k].uploadUrl
  {
    job.(items := job.items[k := ApplyItemPatch(job.items[k], patch)])
  }

  /** The jobs are exactly those created, in creation order under ids "1" …
      String(nextId - 1); each job sits under its own id and numbers its
      items by index. */
  ghost predicate JobInv(jobs: map<string, JobRecord>, order: seq<string>, nextId: nat) {
    && nextId >= 1
    && order == Js.IdsUpTo(nextId - 1)
    && (forall k :: k in jobs <==> k in order)
    && (forall k :: k in jobs ==> jobs[k].id == k && ItemsNumbered(k, jobs[k].items))
  }

  /** Every stored job id is a decimal counter. */
  lemma StoredIdDecimal(jobs: map<string, JobRecord>, order: seq<string>, nextId: nat, k: string)
    requires JobInv(jobs, order, nextId) && k in jobs
    ensures Js.IsDecimal(k)
  {
    var i :| 0 <= i < |order| && order[i] == k;
    Js.ParseNatToString(i + 1);
  }

  /** No two items of the store, in the same job or in two jobs, share an id. */
  lemma ItemIdsUnique(jobs: map<string, JobRecord>, order: seq<string>, nextId: nat,
                      a: string, i: nat, b: string, j: nat)
    requires JobInv(jobs, order, nextId)
    requires a in jobs && i < |jobs[a].items| && b in jobs && j < |jobs[b].items|
    requires jobs[a].items[i].id == jobs[b].items[j].id
    ensures a == b && i == j
  {
    StoredIdDecimal(jobs, order, nextId, a);
    StoredIdDecimal(jobs, order, nextId, b);
    ItemIdInjective(a, i, b, j);
  }

  /** Reading the jobs in iteration order gives each job once, under the ids
      "1", "2", … in turn. */
  lemma JobListing(jobs: map<string, JobRecord>, order: seq<string>, nextId: nat)
    requires JobInv(jobs, order, nextId)
    ensures |order| == nextId - 1
    ensures forall i :: 0 <= i < |order| ==> order[i] in jobs
    ensures forall i :: 0 <= i < |order| ==> jobs[order[i]].id == order[i] == Js.NatToString(i + 1)
    ensures forall i, j :: 0 <= i < j < |order| ==> order[i] != order[j]
  {
    Js.IdsDistinct(nextId - 1);
  }

  /** Patching an item or setting the status of a stored job keeps the
      store consistent: neither touches the job id or the item ids. */
  lemma ReplaceKeepsInv(jobs: map<string, JobRecord>, order: seq<string>, nextId: nat, k: string, job: JobRecord)
    requires JobInv(jobs, order, nextId) && k in jobs
    requires job.id == k && |job.items| == |jobs[k].items|
    requires forall i :: 0 <= i < |job.items| ==> job.items[i].id == jobs[k].items[i].id
    ensures JobInv(jobs[k := job], order, nextId)
  {
  }

  /** The store. */
  class Store {
    var jobs: map<string, JobRecord>
    var order: seq<string>
    var nextId: nat

    ghost predicate Valid()
      reads this
    {
      JobInv(jobs, order, nextId)
    }

    constructor ()
      ensures Valid() && jobs == map[] && nextId == 1
    {
      jobs := map[];
      order := [];
      nextId := 1;
    }

    /** `createJob`: a fresh id, the new job stored under it, every other
        job unchanged. */
    method CreateJob(fileId: Js.Value, items: seq<ItemInput>, status: Js.Value, createdAt: string)
      returns (rec: JobRecord)
      requires Valid()
      modifies this
      ensures Valid()
      ensures rec.id == Js.NatToString(old(nextId)) && rec.id !in old(jobs)
      ensures rec == NewJob(rec.id, fileId, items, status, createdAt)
      ensures jobs == old(jobs)[rec.id := rec]
      ensures order == old(order) + [rec.id] && nextId == old(nextId) + 1
    {
      var id := Js.NatToString(nextId);
      Js.IdsSnoc(nextId - 1);
      nextId := nextId + 1;
      rec := NewJob(id, fileId, items, status, createdAt);
      jobs := jobs[id := rec];
      order := order + [id];
    }

    /** `getJob`: the job stored under the id, or null. */
    method GetJob(id: string) returns (r: Option<JobRecord>)
      requires Valid()
      ensures r.Some? <==> id in jobs
      ensures r.Some? ==> r.value == jobs[id] && r.value.id == id
    {
      r := if id in jobs then Some(jobs[id]) else None;
    }

    /** `listJobs`: every job once, in creation order. */
    method ListJobs() returns (r: seq<JobRecord>)
      requires Valid()
      ensures |r| == |order| == nextId - 1
      ensures forall i :: 0 <= i < |r| ==> order[i] in jobs && r[i] == jobs[order[i]]
      ensures forall i :: 0 <= i < |r| ==> r[i].id == order[i] == Js.NatToString(i + 1)
      ensures forall i, j :: 0 <= i < j < |r| ==> r[i].id != r[j].id
    {
      JobListing(jobs, order, nextId);
      var keys, stored := order, jobs;
      r := seq(|keys|, i requires 0 <= i < |keys| && keys[i] in stored => stored[keys[i]]);
    }

    /** `updateJobItem`: null and no change for an unknown job or item;
        otherwise the first item with that id takes the patch, and nothing
        else in the store changes. */
    method UpdateJobItem(jobId: string, itemId: string, patch: ItemPatch) returns (r: Option<JobItem>)
      requires Valid()
      modifies this
      ensures Valid()
      ensures jobId !in old(jobs) ==> r.None? && jobs == old(jobs)
      ensures jobId in old(jobs) && FindItem(old(jobs)[jobId].items, itemId).None? ==>
        r.None? && jobs == old(jobs)
      ensures jobId in old(jobs) && FindItem(old(jobs)[jobId].items, itemId).Some? ==>
        var job := old(jobs)[jobId];
        var k := FindItem(job.items, itemId).value;
        && r == Some(ApplyItemPatch(job.items[k], patch))
        && jobs == old(jobs)[jobId := PatchItem(job, k, patch)]
      ensures order == old(order) && nextId == old(nextId)
    {
      if jobId !in jobs {
        return None;
      }
      var job := jobs[jobId];
      var found := FindItem(job.items, itemId);
      if found.None? {
        return None;
      }
      var k := found.value;
      var updated := PatchItem(job, k, patch);
      ReplaceKeepsInv(jobs, order, nextId, jobId, updated);
      jobs := jobs[jobId := updated];
      r := Some(updated.items[k]);
    }

    /** `updateJobStatus`: null and no change for an unknown job; otherwise
        only the status of that job changes. */
    method UpdateJobStatus(jobId: string, status: Js.Value) returns (r: Option<JobRecord>)
      requires Valid()
      modifies this
      ensures Valid()
      ensures jobId !in old(jobs) ==> r.None? && jobs == old(jobs)
      ensures jobId in old(jobs) ==>
        && r == Some(old(jobs)[jobId].(status := status))
        && jobs == old(jobs)[jobId := old(jobs)[jobId].(status := status)]
      ensures order == old(order) && nextId == old(nextId)
    {
      if jobId !in jobs {
        return None;
      }
      var updated := jobs[jobId].(status := status);
      ReplaceKeepsInv(jobs, order, nextId, jobId, updated);
      jobs := jobs[jobId := updated];
      r := Some(updated);
    }
  }
}

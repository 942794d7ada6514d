/**
 * The resumable notes sync. A job holds one item per markdown file of a commit; each run
 * settles pending items batch by batch (synced, failed, or skipped after too many
 * retries), pauses the whole job when GitHub rate-limits it, and once no item is pending
 * marks the job completed and deletes the stored documents no longer in the repository.
 *
 * The job store and the document store are one `Store` object updated in place; the
 * behaviour of its queries, which live outside this file, is stated on its methods.
 */
module NotesSync {
  import opened Wrappers
  import opened Text
  import opened FrontMatter
  import opened NoteMetadata
  import opened RateLimit
  import opened GitHub

  const Repo := "elimelt/notes"
  const ContentPath := "content"
  const ApiBase := "https://api.github.com"

  /** Failures after which an item counts as finally failed (only logged). */
  const MaxItemRetries: nat := 3
  /** Retries after which a pending item is skipped without a fetch. */
  const SkipItemAfterRetries: nat := 5
  /** Pending items fetched per batch. */
  const BatchSize: nat := 50
  /** The longest a run waits for the reset of a paused job before resuming it. */
  const ResumeWaitCap: real := 5.0

  const CommitUrl := ApiBase + "/repos/" + Repo + "/commits/main"
  const TreeUrl := ApiBase + "/repos/" + Repo + "/git/trees/main?recursive=1"

  function ContentsUrl(path: string): string {
    ApiBase + "/repos/" + Repo + "/contents/" + path
  }

  // ---------------------------------------------------------------------------------
  // Jobs and items

  /** Why an item is failed or skipped. */
  datatype ItemError = FileFailed(cause: FileError) | ExceededRetries(retries: nat)

  datatype ItemStatus = Pending | Succeeded | Failed | Skipped

  datatype Item = Item(path: string, status: ItemStatus, retryCount: nat, error: Option<ItemError>)

  datatype JobStatus = JobPending | Running | Paused | Completed

  /** A sync job; its id is its position in the store plus one. */
  datatype Job = Job(
    commitSha: Option<string>,
    status: JobStatus,
    items: seq<Item>,
    completedItems: nat,
    failedItems: nat,
    resetAt: Option<real>,
    errorMessage: Option<string>)

  function NewItems(paths: seq<string>): seq<Item> {
    seq(|paths|, k requires 0 <= k < |paths| => Item(paths[k], Pending, 0, None))
  }

  /** A job as created: one pending item per path, nothing counted yet. */
  function NewJob(sha: Option<string>, paths: seq<string>): Job {
    Job(sha, JobPending, NewItems(paths), 0, 0, None, None)
  }

  /**
   * What the store keeps when an item is updated to `status`: a failure counts as one
   * more retry, and the error is replaced.
   */
  function Recorded(a: Item, status: ItemStatus, error: Option<ItemError>): Item {
    a.(status := status, error := error, retryCount := if status == Failed then a.retryCount + 1 else a.retryCount)
  }

  /** The number of items with status `s`. */
  function Count(items: seq<Item>, s: ItemStatus): (n: nat)
    ensures n <= |items|
  {
    if items == [] then 0
    else (if items[0].status == s then 1 else 0) + Count(items[1..], s)
  }

  /** No item has status `s` exactly when none is counted. */
  lemma {:induction false} CountNone(items: seq<Item>, s: ItemStatus)
    ensures Count(items, s) == 0 <==> forall k :: 0 <= k < |items| ==> items[k].status != s
  {
    if items != [] {
      CountNone(items[1..], s);
      assert forall k :: 1 <= k < |items| ==> items[k] == items[1..][k - 1];
    }
  }

  /** Every item has exactly one of the four statuses. */
  lemma {:induction false} CountsAddUp(items: seq<Item>)
    ensures Count(items, Pending) + Count(items, Succeeded) + Count(items, Failed) + Count(items, Skipped) == |items|
  {
    if items != [] {
      CountsAddUp(items[1..]);
    }
  }

  /** The paths of the items that succeeded, in item order. */
  function SucceededPaths(items: seq<Item>): (r: seq<string>)
    ensures forall t :: 0 <= t < |r| ==> exists k :: 0 <= k < |items| && items[k].status == Succeeded && items[k].path == r[t]
    ensures forall k :: 0 <= k < |items| && items[k].status == Succeeded ==> items[k].path in r
  {
    if items == [] then []
    else if items[0].status == Succeeded then [items[0].path] + SucceededPaths(items[1..])
    else SucceededPaths(items[1..])
  }

  predicate Increasing(s: seq<nat>) {
    forall a, b :: 0 <= a < b < |s| ==> s[a] < s[b]
  }

  /** The positions, from `from` on and in order, of the pending items. */
  function PendingFrom(items: seq<Item>, from: nat): (r: seq<nat>)
    requires from <= |items|
    ensures forall t :: 0 <= t < |r| ==> from <= r[t] < |items| && items[r[t]].status == Pending
    ensures forall k :: from <= k < |items| && items[k].status == Pending ==> k in r
    ensures Increasing(r)
    decreases |items| - from
  {
    if from == |items| then []
    else if items[from].status == Pending then [from] + PendingFrom(items, from + 1)
    else PendingFrom(items, from + 1)
  }

  /**
   * `sync_job_get_pending_items(job_id, limit)`: the first `limit` pending items in item
   * order, as positions; empty exactly when no item is pending.
   */
  function PendingBatch(items: seq<Item>, limit: nat): (r: seq<nat>)
    ensures |r| <= limit
    ensures forall t :: 0 <= t < |r| ==> r[t] < |items| && items[r[t]].status == Pending
    ensures Increasing(r)
    ensures limit > 0 ==> (r == [] <==> Count(items, Pending) == 0)
  {
    var all := PendingFrom(items, 0);
    assert all == [] ==> forall k :: 0 <= k < |items| ==> items[k].status != Pending by {
      if all == [] {
        forall k | 0 <= k < |items| ensures items[k].status != Pending {
          assert k !in all;
        }
      }
    }
    CountNone(items, Pending);
    assert all != [] ==> items[all[0]].status == Pending;
    if |all| <= limit then all else all[..limit]
  }

  // ---------------------------------------------------------------------------------
  // What a run may do to the items of its job

  /**
   * One item across a run: untouched, or a pending item settled. It is skipped exactly
   * when it had reached the skip threshold; a failure counts one more retry and keeps
   * its cause, which is never rate limiting (that leaves the item pending).
   */
  predicate Stepped(a: Item, b: Item) {
    a == b ||
    (&& a.status == Pending
     && (b.status == Skipped <==> a.retryCount >= SkipItemAfterRetries)
     && (b.status == Skipped ==> b == Recorded(a, Skipped, Some(ExceededRetries(a.retryCount))))
     && (b.status == Succeeded ==> b == Recorded(a, Succeeded, None))
     && (b.status == Failed ==>
           && b.error.Some? && b.error.value.FileFailed? && b.error.value.cause != RateLimited
           && b == Recorded(a, Failed, b.error))
     && b.status != Pending)
  }

  /** The items of a job across one or more steps of a run. */
  predicate Advanced(a: seq<Item>, b: seq<Item>) {
    |a| == |b| && forall k :: 0 <= k < |a| ==> Stepped(a[k], b[k])
  }

  lemma SteppedTrans(a: Item, b: Item, c: Item)
    requires Stepped(a, b) && Stepped(b, c)
    ensures Stepped(a, c)
  {
  }

  /** Runs compose: items settled earlier are never touched again. */
  lemma AdvancedTrans(a: seq<Item>, b: seq<Item>, c: seq<Item>)
    requires Advanced(a, b) && Advanced(b, c)
    ensures Advanced(a, c)
  {
    forall k | 0 <= k < |a|
      ensures Stepped(a[k], c[k])
    {
      SteppedTrans(a[k], b[k], c[k]);
    }
  }

  /** A run never adds pending items, and settling one leaves fewer. */
  lemma {:induction false} AdvancedPending(a: seq<Item>, b: seq<Item>, k: nat)
    requires Advanced(a, b)
    ensures Count(b, Pending) <= Count(a, Pending)
    ensures k < |a| && a[k].status == Pending && b[k].status != Pending ==> Count(b, Pending) < Count(a, Pending)
  {
    if a != [] {
      assert Advanced(a[1..], b[1..]) by {
        forall t | 0 <= t < |a[1..]|
          ensures Stepped(a[1..][t], b[1..][t])
        {
          assert a[1..][t] == a[t + 1] && b[1..][t] == b[t + 1];
        }
      }
      AdvancedPending(a[1..], b[1..], if k == 0 then 0 else k - 1);
      if k > 0 && k < |a| {
        assert a[1..][k - 1] == a[k] && b[1..][k - 1] == b[k];
      }
    }
  }

  /** Settled items compose too: a synced path belongs to an item some step settled. */
  lemma SyncedItemsTrans(a: seq<Item>, b: seq<Item>, c: seq<Item>, s1: seq<string>, s2: seq<string>)
    requires Advanced(a, b) && Advanced(b, c)
    requires SyncedItems(a, b, s1) && SyncedItems(b, c, s2)
    ensures SyncedItems(a, c, s1 + s2)
  {
    forall k | 0 <= k < |a| && a[k].status == Pending && c[k].status == Succeeded
      ensures c[k].path in s1 + s2
    {
      if b[k].status == Pending {
        assert c[k].path in s2;
      } else {
        assert c[k] == b[k];
        assert b[k].path in s1;
      }
    }
    forall t | 0 <= t < |s1 + s2|
      ensures exists k :: 0 <= k < |a| && a[k].status == Pending && c[k].status == Succeeded && c[k].path == (s1 + s2)[t]
    {
      if t < |s1| {
        var k :| 0 <= k < |a| && a[k].status == Pending && b[k].status == Succeeded && b[k].path == s1[t];
        assert c[k] == b[k];
      } else {
        var k :| 0 <= k < |b| && b[k].status == Pending && c[k].status == Succeeded && c[k].path == s2[t - |s1|];
        assert a[k] == b[k];
      }
    }
  }

  /**
   * The paths a run synced are exactly those of the items it settled as succeeded
   * (counted once per item).
   */
  predicate SyncedItems(start: seq<Item>, cur: seq<Item>, synced: seq<string>) {
    && |start| == |cur|
    && (forall k :: 0 <= k < |start| && start[k].status == Pending && cur[k].status == Succeeded ==> cur[k].path in synced)
    && (forall t :: 0 <= t < |synced| ==>
          exists k :: 0 <= k < |start| && start[k].status == Pending && cur[k].status == Succeeded && cur[k].path == synced[t])
  }

  // ---------------------------------------------------------------------------------
  // Documents

  /** `before` with the documents of `synced` upserted at commit `sha`, and nothing else changed. */
  predicate SyncedDocs(before: map<string, Document>, after: map<string, Document>, synced: seq<string>, sha: Option<string>) {
    && (forall p :: p in after ==> p in before || p in synced)
    && (forall p :: p in before && p !in synced ==> p in after && after[p] == before[p])
    && (forall t :: 0 <= t < |synced| ==>
          synced[t] in after && after[synced[t]].path == synced[t] && after[synced[t]].commitSha == sha)
  }

  lemma SyncedDocsTrans(a: map<string, Document>, b: map<string, Document>, c: map<string, Document>,
                        s1: seq<string>, s2: seq<string>, sha: Option<string>)
    requires SyncedDocs(a, b, s1, sha) && SyncedDocs(b, c, s2, sha)
    ensures SyncedDocs(a, c, s1 + s2, sha)
  {
    forall t | 0 <= t < |s1 + s2|
      ensures (s1 + s2)[t] in c && c[(s1 + s2)[t]].path == (s1 + s2)[t] && c[(s1 + s2)[t]].commitSha == sha
    {
      if t >= |s1| {
        assert (s1 + s2)[t] == s2[t - |s1|];
      }
    }
  }

  /** The documents kept by `notes_delete_documents_not_in(keep)`. */
  function Restricted(docs: map<string, Document>, keep: seq<string>): (r: map<string, Document>)
    ensures forall p :: p in r <==> p in docs && p in keep
    ensures forall p :: p in r ==> r[p] == docs[p]
  {
    map p | p in docs && p in keep :: docs[p]
  }

  /**
   * `after` is `before` with the documents of `synced` upserted at `sha` and every
   * document whose path is not in `keep` deleted.
   */
  predicate ReconciledDocs(before: map<string, Document>, after: map<string, Document>, synced: seq<string>,
                           sha: Option<string>, keep: seq<string>) {
    && (forall p :: p in after ==> p in keep && (p in before || p in synced))
    && (forall p :: p in before && p in keep && p !in synced ==> p in after && after[p] == before[p])
    && (forall t :: 0 <= t < |synced| ==>
          synced[t] in after && after[synced[t]].path == synced[t] && after[synced[t]].commitSha == sha)
  }

  /** Deleting outside the succeeded paths never deletes a document the run synced. */
  lemma ReconcileKeepsSynced(before: map<string, Document>, mid: map<string, Document>, synced: seq<string>,
                             sha: Option<string>, start: seq<Item>, items: seq<Item>)
    requires SyncedDocs(before, mid, synced, sha) && SyncedItems(start, items, synced)
    ensures ReconciledDocs(before, Restricted(mid, SucceededPaths(items)), synced, sha, SucceededPaths(items))
    ensures synced != [] ==> SucceededPaths(items) != []
  {
    var keep := SucceededPaths(items);
    forall t | 0 <= t < |synced|
      ensures synced[t] in keep
    {
      var k :| 0 <= k < |start| && start[k].status == Pending && items[k].status == Succeeded && items[k].path == synced[t];
    }
    if synced != [] {
      assert synced[0] in keep;
    }
  }

  /** `error_summary`: the non-zero counts of failed and skipped items. */
  function ErrorSummary(failed: nat, skipped: nat): (r: string)
    ensures r == [] <==> failed == 0 && skipped == 0
  {
    var parts := (if failed > 0 then [Decimal(failed) + " failed"] else [])
               + (if skipped > 0 then [Decimal(skipped) + " skipped (unrecoverable)"] else []);
    Join(parts, ", ")
  }

  /** A job after `sync_job_update_status`: a reset time or error message is stored only when given. */
  function WithStatus(job: Job, status: JobStatus, resetAt: Option<real>, errorMessage: Option<string>): Job {
    job.(status := status,
         resetAt := if resetAt.Some? then resetAt else job.resetAt,
         errorMessage := if errorMessage.Some? then errorMessage else job.errorMessage)
  }

  /** The items of `items` whose failure may be retried, with `maxRetries` as the bound. */
  predicate Retriable(a: Item, maxRetries: nat) {
    a.status == Failed && a.retryCount < maxRetries
  }

  /** `sync_job_reset_failed_items`: retriable failed items are pending again; the rest stay. */
  function ResetFailed(items: seq<Item>, maxRetries: nat): (r: seq<Item>)
    ensures |r| == |items|
    ensures forall k :: 0 <= k < |items| ==>
      r[k] == (if Retriable(items[k], maxRetries) then items[k].(status := Pending) else items[k])
  {
    if items == [] then []
    else [if Retriable(items[0], maxRetries) then items[0].(status := Pending) else items[0]]
         + ResetFailed(items[1..], maxRetries)
  }

  /** With no retriable item, resetting changes nothing. */
  lemma ResetNothing(items: seq<Item>, maxRetries: nat)
    requires RetriableCount(items, maxRetries) == 0
    ensures ResetFailed(items, maxRetries) == items
  {
    assert forall k :: 0 <= k < |items| ==> ResetFailed(items, maxRetries)[k] == items[k];
  }

  /** The number of retriable failed items. */
  function RetriableCount(items: seq<Item>, maxRetries: nat): (n: nat)
    ensures n == 0 <==> forall k :: 0 <= k < |items| ==> !Retriable(items[k], maxRetries)
  {
    if items == [] then 0
    else (if Retriable(items[0], maxRetries) then 1 else 0) + RetriableCount(items[1..], maxRetries)
  }

  /** Every pending item has failed fewer than `bound` times. */
  predicate PendingBelow(items: seq<Item>, bound: nat) {
    forall k :: 0 <= k < |items| && items[k].status == Pending ==> items[k].retryCount < bound
  }

  /** A new job's items are pending and have never failed. */
  lemma NewJobPendingBelow(sha: Option<string>, paths: seq<string>)
    ensures PendingBelow(NewJob(sha, paths).items, MaxRetries)
  {
  }

  /** A reset makes pending only failures under the retry bound. */
  lemma ResetKeepsPendingBelow(items: seq<Item>, maxRetries: nat)
    requires PendingBelow(items, maxRetries)
    ensures PendingBelow(ResetFailed(items, maxRetries), maxRetries)
  {
  }

  /** A run leaves an item pending only when it leaves it untouched. */
  lemma AdvancedKeepsPendingBelow(a: seq<Item>, b: seq<Item>, bound: nat)
    requires Advanced(a, b) && PendingBelow(a, bound)
    ensures PendingBelow(b, bound)
  {
  }

  /**
   * New jobs, runs and resets with `MaxRetries` keep every pending item under
   * `MaxRetries` failures, so no pending item of such a job reaches the skip threshold:
   * the skip branch of the batch loop is never taken for the jobs this sync creates.
   */
  lemma SkipUnreachable(items: seq<Item>, k: nat)
    requires PendingBelow(items, MaxRetries) && k < |items| && items[k].status == Pending
    ensures items[k].retryCount < SkipItemAfterRetries
  {
  }

  /** The job and document stores. */
  class Store {
    /** The sync jobs, oldest first; job `id` is `jobs[id - 1]`. */
    var jobs: seq<Job>
    /** The stored notes, by path. */
    var documents: map<string, Document>
    /** The commit of the last complete sync; no operation here records it. */
    var lastSyncSha: Option<string>

    /** `sync_job_create`: a job with one pending item per path; its id is returned. */
    method CreateJob(sha: Option<string>, paths: seq<string>) returns (id: nat)
      modifies this`jobs
      ensures jobs == old(jobs) + [NewJob(sha, paths)] && id == |jobs|
    {
      jobs := jobs + [NewJob(sha, paths)];
      id := |jobs|;
    }

    /** `sync_job_item_update` */
    method UpdateItem(j: nat, i: nat, status: ItemStatus, error: Option<ItemError>)
      requires j < |jobs| && i < |jobs[j].items|
      modifies this`jobs
      ensures jobs == old(jobs)[j := old(jobs[j]).(items := old(jobs[j].items)[i := Recorded(old(jobs[j].items[i]), status, error)])]
    {
      var job := jobs[j];
      jobs := jobs[j := job.(items := job.items[i := Recorded(job.items[i], status, error)])];
    }

    /** `sync_job_update_counts`: the cached counts are recomputed from the items. */
    method UpdateCounts(j: nat)
      requires j < |jobs|
      modifies this`jobs
      ensures jobs == old(jobs)[j := old(jobs[j]).(completedItems := Count(old(jobs[j].items), Succeeded),
                                                    failedItems := Count(old(jobs[j].items), Failed))]
    {
      var job := jobs[j];
      jobs := jobs[j := job.(completedItems := Count(job.items, Succeeded), failedItems := Count(job.items, Failed))];
    }

    /** `sync_job_update_status` */
    method SetStatus(j: nat, status: JobStatus, resetAt: Option<real>, errorMessage: Option<string>)
      requires j < |jobs|
      modifies this`jobs
      ensures jobs == old(jobs)[j := WithStatus(old(jobs[j]), status, resetAt, errorMessage)]
    {
      jobs := jobs[j := WithStatus(jobs[j], status, resetAt, errorMessage)];
    }

    /** `sync_job_reset_failed_items`; a job id naming no job resets nothing. */
    method ResetFailedItems(id: nat, maxRetries: nat) returns (n: nat)
      modifies this`jobs
      ensures !(1 <= id <= |old(jobs)|) ==> jobs == old(jobs) && n == 0
      ensures 1 <= id <= |old(jobs)| ==>
        && n == RetriableCount(old(jobs[id - 1].items), maxRetries)
        && jobs == old(jobs)[id - 1 := old(jobs[id - 1]).(items := ResetFailed(old(jobs[id - 1].items), maxRetries))]
    {
      n := 0;
      if 1 <= id <= |jobs| {
        var job := jobs[id - 1];
        n := RetriableCount(job.items, maxRetries);
        jobs := jobs[id - 1 := job.(items := ResetFailed(job.items, maxRetries))];
      }
    }

    /** `notes_upsert_document`, keyed by path. */
    method Upsert(d: Document)
      modifies this`documents
      ensures documents == old(documents)[d.path := d]
    {
      documents := documents[d.path := d];
    }

    /** `notes_delete_documents_not_in`: the number of documents deleted is returned. */
    method DeleteNotIn(keep: seq<string>) returns (deleted: nat)
      modifies this`documents
      ensures documents == Restricted(old(documents), keep)
      ensures deleted == |old(documents).Keys - documents.Keys|
      ensures deleted == 0 ==> documents == old(documents)
    {
      var kept := Restricted(documents, keep);
      deleted := |documents.Keys - kept.Keys|;
      if deleted == 0 {
        assert documents.Keys - kept.Keys == {};
        assert forall p :: p in documents ==> p in kept;
      }
      documents := kept;
    }
  }

  // ---------------------------------------------------------------------------------
  // Fetching

  /** `path.startswith("content/") and path.endswith(".md")` */
  predicate IsNotePath(p: string) {
    ContentPath + "/" <= p && |p| >= 3 && p[|p| - 3..] == ".md"
  }

  /** The markdown files under `content/` among the blobs of a tree listing, in order. */
  function MarkdownPaths(tree: seq<TreeItem>): (r: seq<string>)
    ensures forall p :: p in r ==> IsNotePath(p) && TreeItem(p, "blob") in tree
    ensures forall item :: item in tree && item.kind == "blob" && IsNotePath(item.path) ==> item.path in r
    ensures |r| <= |tree|
  {
    if tree == [] then []
    else
      var rest := MarkdownPaths(tree[1..]);
      assert forall item :: item in tree[1..] ==> item in tree;
      if tree[0].kind == "blob" && IsNotePath(tree[0].path) then [tree[0].path] + rest else rest
  }

  /** A tree item contributes its own path, or nothing. */
  lemma MarkdownPathsOne(item: TreeItem)
    ensures MarkdownPaths([item]) == if item.kind == "blob" && IsNotePath(item.path) then [item.path] else []
  {
    assert [item][1..] == [];
  }

  /**
   * The listing keeps the tree's order and one entry per qualifying item: the paths of
   * a tree split in two are those of the first part followed by those of the second.
   */
  lemma {:induction false} MarkdownPathsAppend(a: seq<TreeItem>, b: seq<TreeItem>)
    ensures MarkdownPaths(a + b) == MarkdownPaths(a) + MarkdownPaths(b)
  {
    if a == [] {
      assert a + b == b;
    } else {
      assert (a + b)[1..] == a[1..] + b;
      MarkdownPathsAppend(a[1..], b);
    }
  }

  /** What the sync reports in `message`. */
  datatype Message =
    | ResumingJob(id: nat)
    | CommitRateLimited
    | CommitFailed(status: int)
    | TreeRateLimited
    | TreeFailed(status: int)
    | AlreadySynced(sha: Option<string>)
    | NoMarkdownFiles
    | PausedForRateLimit(completed: nat, total: nat)
    | SyncCompleted(completed: nat)
    | CompletedWithIssues(summary: string, completed: nat, total: nat)

  /** `get_repo_latest_commit`: the `sha` of the latest commit on `main`, or why not. */
  method LatestCommit(client: GitHubClient, net: Network, rand: Draws)
    returns (sha: Option<string>, err: Option<Message>, ghost resp: Response)
    modifies client
    ensures err.None? <==> resp.Success()
    ensures err.None? ==> sha == resp.data.sha
    ensures err.Some? ==> sha.None? && err.value == (if resp.isRateLimited then CommitRateLimited else CommitFailed(resp.status))
  {
    var got, how := client.Get(CommitUrl, MaxRetries, net, rand);
    resp := got;
    if !got.Success() {
      if got.isRateLimited {
        return None, Some(CommitRateLimited), resp;
      }
      return None, Some(CommitFailed(got.status)), resp;
    }
    return got.data.sha, None, resp;
  }

  /** `get_content_tree`: the note paths of the tree of `main`, or why not. */
  method ContentTree(client: GitHubClient, net: Network, rand: Draws)
    returns (paths: seq<string>, err: Option<Message>, ghost resp: Response)
    modifies client
    ensures err.None? <==> resp.Success()
    ensures err.None? ==> paths == MarkdownPaths(resp.data.tree)
    ensures err.Some? ==> paths == [] && err.value == (if resp.isRateLimited then TreeRateLimited else TreeFailed(resp.status))
  {
    var got, how := client.Get(TreeUrl, MaxRetries, net, rand);
    resp := got;
    if !got.Success() {
      if got.isRateLimited {
        return [], Some(TreeRateLimited), resp;
      }
      return [], Some(TreeFailed(got.status)), resp;
    }
    return MarkdownPaths(got.data.tree), None, resp;
  }

  /**
   * What `fetch_and_process_file` makes of the answer to its request for `path`:
   * a refusal for rate limiting, any other non-2xx status, an empty or undecodable
   * `content`, or the document built from the decoded text.
   */
  function FileOutcome(path: string, resp: Response, sha: Option<string>,
                       decode: string -> Option<string>, load: string -> Option<Value>): (r: Result<Document, FileError>)
    ensures r == Err(RateLimited) <==> !resp.Success() && resp.isRateLimited
    ensures r.Err? && r.error.FetchFailed? <==> !resp.Success() && !resp.isRateLimited
    ensures r.Ok? ==> && resp.Success() && resp.data.content != [] && decode(resp.data.content).Some?
                      && r == BuildDocument(path, decode(resp.data.content).value, sha, load)
                      && r.value.path == path && r.value.commitSha == sha
  {
    if !resp.Success() then
      if resp.isRateLimited then Err(RateLimited) else Err(FetchFailed(resp.status))
    else if resp.data.content == "" then Err(EmptyContent)
    else match decode(resp.data.content)
      case None => Err(DecodeFailed)
      case Some(text) => BuildDocument(path, text, sha, load)
  }

  /**
   * `fetch_and_process_file`: one GET of the file's contents; the document is upserted
   * only when every step succeeds.
   */
  method FetchAndProcessFile(client: GitHubClient, store: Store, path: string, sha: Option<string>,
                             net: Network, rand: Draws, decode: string -> Option<string>, load: string -> Option<Value>)
    returns (r: Result<Document, FileError>, ghost resp: Response)
    modifies client, store`documents
    ensures r == FileOutcome(path, resp, sha, decode, load)
    ensures r.Ok? ==> store.documents == old(store.documents)[path := r.value]
    ensures r.Err? ==> store.documents == old(store.documents)
  {
    var got, how := client.Get(ContentsUrl(path), MaxRetries, net, rand);
    resp := got;
    r := FileOutcome(path, got, sha, decode, load);
    if r.Ok? {
      store.Upsert(r.value);
    }
  }

  // ---------------------------------------------------------------------------------
  // The item loop

  /** Settling one pending item is a step of the run, which synced its path if it succeeded. */
  lemma SettleOne(cur: seq<Item>, i: nat, b: Item)
    requires i < |cur| && cur[i].status == Pending && Stepped(cur[i], b)
    ensures Advanced(cur, cur[i := b])
    ensures SyncedItems(cur, cur[i := b], if b.status == Succeeded then [b.path] else [])
  {
    var next := cur[i := b];
    forall k | 0 <= k < |cur|
      ensures Stepped(cur[k], next[k])
    {
    }
    if b.status == Succeeded {
      assert next[i].path == b.path;
    }
  }

  /** Two rounds of the item loop make one. */
  lemma RoundComposes(start: seq<Item>, before: seq<Item>, after: seq<Item>,
                      docs0: map<string, Document>, docs1: map<string, Document>, docs2: map<string, Document>,
                      synced: seq<string>, more: seq<string>, sha: Option<string>)
    requires Advanced(start, before) && SyncedItems(start, before, synced) && SyncedDocs(docs0, docs1, synced, sha)
    requires Advanced(before, after) && SyncedItems(before, after, more) && SyncedDocs(docs1, docs2, more, sha)
    ensures Advanced(start, after) && SyncedItems(start, after, synced + more) && SyncedDocs(docs0, docs2, synced + more, sha)
  {
    AdvancedTrans(start, before, after);
    SyncedItemsTrans(start, before, after, synced, more);
    SyncedDocsTrans(docs0, docs1, docs2, synced, more, sha);
  }

  /** The job-level fields the item loop leaves alone. */
  predicate SameSettings(a: Job, b: Job) {
    a.commitSha == b.commitSha && a.status == b.status && a.resetAt == b.resetAt && a.errorMessage == b.errorMessage
  }

  /**
   * One item of a batch: skipped without a fetch once it has reached the skip
   * threshold, otherwise fetched and marked succeeded or failed; a rate-limited fetch
   * (`limited`) leaves it pending. `synced` is its path when it succeeded.
   */
  method ProcessItem(client: GitHubClient, store: Store, j: nat, i: nat, sha: Option<string>,
                     net: Network, rand: Draws, decode: string -> Option<string>, load: string -> Option<Value>)
    returns (limited: bool, synced: seq<string>, ghost b: Item)
    requires j < |store.jobs| && i < |store.jobs[j].items| && store.jobs[j].items[i].status == Pending
    modifies client, store`jobs, store`documents
    ensures limited ==> b == old(store.jobs[j].items[i]) && b.retryCount < SkipItemAfterRetries
    ensures limited ==> store.jobs == old(store.jobs) && store.documents == old(store.documents)
    ensures !limited ==> Stepped(old(store.jobs[j].items[i]), b) && b.status != Pending
    ensures store.jobs == old(store.jobs)[j := old(store.jobs[j]).(items := old(store.jobs[j].items)[i := b])]
    ensures synced == (if b.status == Succeeded then [b.path] else [])
    ensures SyncedDocs(old(store.documents), store.documents, synced, sha)
  {
    var a := store.jobs[j].items[i];
    if a.retryCount >= SkipItemAfterRetries {
      store.UpdateItem(j, i, Skipped, Some(ExceededRetries(a.retryCount)));
      return false, [], Recorded(a, Skipped, Some(ExceededRetries(a.retryCount)));
    }
    var r, resp := FetchAndProcessFile(client, store, a.path, sha, net, rand, decode, load);
    if r.Ok? {
      store.UpdateItem(j, i, Succeeded, None);
      return false, [a.path], Recorded(a, Succeeded, None);
    } else if r.error == RateLimited {
      assert store.jobs[j].items[i := a] == store.jobs[j].items;
      assert store.jobs[j].(items := store.jobs[j].items) == store.jobs[j];
      assert store.jobs[j := store.jobs[j]] == store.jobs;
      return true, [], a;
    } else {
      store.UpdateItem(j, i, Failed, Some(FileFailed(r.error)));
      return false, [], Recorded(a, Failed, Some(FileFailed(r.error)));
    }
  }

  /** Job `j` of `after` differs from that of `before` in its items at most, and no other job changed. */
  predicate ItemsOnly(before: seq<Job>, after: seq<Job>, j: nat) {
    j < |before| == |after| && after == before[j := before[j].(items := after[j].items)]
  }

  lemma ItemsOnlyStep(before: seq<Job>, mid: seq<Job>, after: seq<Job>, j: nat, i: nat, b: Item)
    requires ItemsOnly(before, mid, j) && i < |mid[j].items|
    requires after == mid[j := mid[j].(items := mid[j].items[i := b])]
    ensures ItemsOnly(before, after, j) && after[j].items == mid[j].items[i := b]
  {
  }

  /** Halfway through a batch: the positions before `t` are settled, the others as in `snap`. */
  predicate BatchProgress(snap: seq<Item>, items: seq<Item>, batch: seq<nat>, t: nat) {
    && t <= |batch| && |items| == |snap|
    && (forall u :: 0 <= u < |batch| ==> batch[u] < |snap|)
    && (forall u :: 0 <= u < t ==> items[batch[u]].status != Pending)
    && (forall u :: t <= u < |batch| ==> items[batch[u]] == snap[batch[u]])
  }

  /** Settling the next position of an increasing batch moves the progress on by one. */
  lemma BatchStep(snap: seq<Item>, cur: seq<Item>, batch: seq<nat>, t: nat, b: Item)
    requires Increasing(batch) && t < |batch| && BatchProgress(snap, cur, batch, t) && b.status != Pending
    ensures BatchProgress(snap, cur[batch[t] := b], batch, t + 1)
  {
    var next := cur[batch[t] := b];
    forall u | t + 1 <= u < |batch|
      ensures next[batch[u]] == snap[batch[u]]
    {
      assert batch[t] < batch[u];
    }
  }

  /**
   * The `for item in pending_items` loop over one batch (given as positions, in order):
   * it stops at the first rate-limited item; otherwise every item of the batch is settled.
   */
  method RunBatch(client: GitHubClient, store: Store, j: nat, batch: seq<nat>, sha: Option<string>,
                  net: Network, rand: Draws, decode: string -> Option<string>, load: string -> Option<Value>)
    returns (limited: bool, synced: seq<string>)
    requires j < |store.jobs| && Increasing(batch)
    requires forall t :: 0 <= t < |batch| ==> batch[t] < |store.jobs[j].items| && store.jobs[j].items[batch[t]].status == Pending
    modifies client, store`jobs, store`documents
    ensures ItemsOnly(old(store.jobs), store.jobs, j)
    ensures Advanced(old(store.jobs[j].items), store.jobs[j].items)
    ensures !limited ==> forall t :: 0 <= t < |batch| ==> store.jobs[j].items[batch[t]].status != Pending
    ensures SyncedDocs(old(store.documents), store.documents, synced, sha)
    ensures SyncedItems(old(store.jobs[j].items), store.jobs[j].items, synced)
  {
    ghost var snap := store.jobs[j].items;
    synced := [];
    var t := 0;
    while t < |batch|
      invariant ItemsOnly(old(store.jobs), store.jobs, j)
      invariant BatchProgress(snap, store.jobs[j].items, batch, t)
      invariant Advanced(snap, store.jobs[j].items)
      invariant SyncedDocs(old(store.documents), store.documents, synced, sha)
      invariant SyncedItems(snap, store.jobs[j].items, synced)
    {
      var i := batch[t];
      ghost var docs := store.documents;
      ghost var jobs := store.jobs;
      ghost var cur := store.jobs[j].items;
      var lim, more, b := ProcessItem(client, store, j, i, sha, net, rand, decode, load);
      if lim {
        return true, synced;
      }
      ItemsOnlyStep(old(store.jobs), jobs, store.jobs, j, i, b);
      SyncedDocsTrans(old(store.documents), docs, store.documents, synced, more, sha);
      SettleOne(cur, i, b);
      BatchStep(snap, cur, batch, t, b);
      AdvancedTrans(snap, cur, cur[i := b]);
      SyncedItemsTrans(snap, cur, cur[i := b], synced, more);
      synced := synced + more;
      t := t + 1;
    }
    return false, synced;
  }

  /** Job `j` keeps its commit, status, reset time and error message, and no other job changed. */
  predicate SettingsKept(before: seq<Job>, after: seq<Job>, j: nat) {
    j < |before| == |after| && after == before[j := after[j]] && SameSettings(before[j], after[j])
  }

  lemma KeptTrans(a: seq<Job>, b: seq<Job>, c: seq<Job>, j: nat)
    requires SettingsKept(a, b, j) && SettingsKept(b, c, j)
    ensures SettingsKept(a, c, j)
  {
  }

  /**
   * One round of the batch loop: the next batch of pending items is run and, unless an
   * item of it was rate limited, the cached counts are recomputed. `finished` when no
   * item was pending, and then nothing changes; a round that is not rate limited leaves
   * fewer items pending.
   */
  method RunRound(client: GitHubClient, store: Store, j: nat, sha: Option<string>,
                  net: Network, rand: Draws, decode: string -> Option<string>, load: string -> Option<Value>)
    returns (finished: bool, limited: bool, synced: seq<string>)
    requires j < |store.jobs|
    modifies client, store`jobs, store`documents
    ensures SettingsKept(old(store.jobs), store.jobs, j)
    ensures Advanced(old(store.jobs[j].items), store.jobs[j].items)
    ensures SyncedDocs(old(store.documents), store.documents, synced, sha)
    ensures SyncedItems(old(store.jobs[j].items), store.jobs[j].items, synced)
    ensures finished ==> !limited && Count(store.jobs[j].items, Pending) == 0
    ensures !finished && !limited ==> Count(store.jobs[j].items, Pending) < Count(old(store.jobs[j].items), Pending)
  {
    var batch := PendingBatch(store.jobs[j].items, BatchSize);
    if batch == [] {
      assert Advanced(store.jobs[j].items, store.jobs[j].items);
      return true, false, [];
    }
    ghost var before := store.jobs[j].items;
    finished := false;
    limited, synced := RunBatch(client, store, j, batch, sha, net, rand, decode, load);
    ItemsOnlyKept(old(store.jobs), store.jobs, j);
    if !limited {
      AdvancedPending(before, store.jobs[j].items, batch[0]);
      ghost var counted := store.jobs;
      store.UpdateCounts(j);
      KeptAfterCounts(counted, store.jobs, j, Count(counted[j].items, Succeeded), Count(counted[j].items, Failed));
      KeptTrans(old(store.jobs), counted, store.jobs, j);
    }
  }

  /** A run of one batch touches only the items of its job. */
  lemma ItemsOnlyKept(before: seq<Job>, after: seq<Job>, j: nat)
    requires ItemsOnly(before, after, j)
    ensures SettingsKept(before, after, j)
  {
  }

  /** Recounting a job touches only its cached counts. */
  lemma KeptAfterCounts(before: seq<Job>, after: seq<Job>, j: nat, completed: nat, failed: nat)
    requires j < |before| && after == before[j := before[j].(completedItems := completed, failedItems := failed)]
    ensures SettingsKept(before, after, j) && after[j].items == before[j].items
  {
  }

  /**
   * The `while True` batch loop: batches of pending items until none is left, or until
   * an item is rate limited; the cached counts are recomputed after each whole batch.
   */
  method RunBatches(client: GitHubClient, store: Store, j: nat, sha: Option<string>,
                    net: Network, rand: Draws, decode: string -> Option<string>, load: string -> Option<Value>)
    returns (limited: bool, synced: seq<string>)
    requires j < |store.jobs|
    modifies client, store`jobs, store`documents
    ensures SettingsKept(old(store.jobs), store.jobs, j)
    ensures Advanced(old(store.jobs[j].items), store.jobs[j].items)
    ensures !limited ==> Count(store.jobs[j].items, Pending) == 0
    ensures SyncedDocs(old(store.documents), store.documents, synced, sha)
    ensures SyncedItems(old(store.jobs[j].items), store.jobs[j].items, synced)
  {
    ghost var start := store.jobs[j].items;
    synced := [];
    assert Advanced(start, start);
    while true
      invariant SettingsKept(old(store.jobs), store.jobs, j)
      invariant Advanced(start, store.jobs[j].items)
      invariant SyncedDocs(old(store.documents), store.documents, synced, sha)
      invariant SyncedItems(start, store.jobs[j].items, synced)
      decreases Count(store.jobs[j].items, Pending)
    {
      ghost var jobs := store.jobs;
      ghost var before := store.jobs[j].items;
      ghost var docs := store.documents;
      var finished, lim, more := RunRound(client, store, j, sha, net, rand, decode, load);
      KeptTrans(old(store.jobs), jobs, store.jobs, j);
      RoundComposes(start, before, store.jobs[j].items, old(store.documents), docs, store.documents, synced, more, sha);
      synced := synced + more;
      if finished {
        return false, synced;
      }
      if lim {
        return true, synced;
      }
    }
  }

  // ---------------------------------------------------------------------------------
  // The orchestrator

  /** The `job_status` a run reports; the store records both completed forms as completed. */
  datatype Reported = SkippedSync | RunningJob | PausedJob | CompletedJob | CompletedWithErrors

  /** `rate_limit_info` of the result. */
  datatype RateLimitSummary = RateLimitSummary(limit: int, remaining: int, resetAt: real)

  /** The result dictionary of `sync_notes_with_job`; absent keys are `None`. */
  datatype SyncResult = SyncResult(
    success: bool,
    jobId: Option<nat>,
    jobStatus: Option<Reported>,
    completed: nat,
    failed: nat,
    pending: int,
    total: nat,
    commitSha: Option<string>,
    rateLimit: Option<RateLimitSummary>,
    message: Option<Message>,
    skippedItems: Option<nat>,
    deleted: Option<nat>)

  const Initial := SyncResult(true, None, None, 0, 0, 0, 0, None, None, None, None, None)

  /**
   * Reconciliation after a completed run that synced something: the documents whose
   * path no item of the job ever synced are deleted; `deleted` is their number when it
   * is not zero.
   */
  method Reconcile(store: Store, j: nat, synced: seq<string>) returns (deleted: Option<nat>)
    requires j < |store.jobs|
    modifies store`documents
    ensures deleted.None? ==> store.documents == old(store.documents)
    ensures deleted.Some? ==> deleted.value > 0 && synced != []
    ensures synced != [] && SucceededPaths(store.jobs[j].items) != [] ==>
      store.documents == Restricted(old(store.documents), SucceededPaths(store.jobs[j].items))
  {
    deleted := None;
    if synced != [] {
      var all := SucceededPaths(store.jobs[j].items);
      if all != [] {
        var d := store.DeleteNotIn(all);
        if d > 0 {
          deleted := Some(d);
        }
      }
    }
  }

  /**
   * The counts after a run of job `a` that ends as `b`: the items advanced, `synced` holds
   * the paths of those the run settled as succeeded, the cached and reported counts are
   * the item counts, and `pending` (computed as total less completed, failed and skipped)
   * is the number of items still pending.
   */
  predicate Tallied(a: Job, b: Job, synced: seq<string>, r: SyncResult) {
    && b.commitSha == a.commitSha
    && Advanced(a.items, b.items) && SyncedItems(a.items, b.items, synced)
    && b.completedItems == Count(b.items, Succeeded) && b.failedItems == Count(b.items, Failed)
    && r.completed == b.completedItems && r.failed == b.failedItems
    && r.skippedItems == Some(Count(b.items, Skipped))
    && r.pending == |b.items| - r.completed - r.failed - r.skippedItems.value
    && r.pending == Count(b.items, Pending)
  }

  /**
   * The final status of a run that ended with job `b` and documents `docs` (from `docs0`):
   * - a rate-limited run is reported paused, pauses the job with the reset time when a
   *   rate-limit reading exists (it stays running otherwise), and deletes nothing;
   * - any other run leaves no item pending and completes the job, reported completed
   *   when nothing failed or was skipped and completed with errors (the summary stored
   *   with the job) otherwise; if it synced anything, every document outside the paths
   *   the job ever synced is deleted.
   */
  predicate Concluded(b: Job, docs0: map<string, Document>, docs: map<string, Document>,
                      synced: seq<string>, sha: Option<string>, r: SyncResult)
    requires r.skippedItems.Some?
  {
    && r.jobStatus.Some? && r.jobStatus.value in {PausedJob, CompletedJob, CompletedWithErrors}
    && (r.deleted.Some? ==> r.deleted.value > 0)
    && (r.jobStatus == Some(PausedJob) ==>
          && b.status == (if r.rateLimit.Some? then Paused else Running)
          && (r.rateLimit.Some? ==> b.resetAt == Some(r.rateLimit.value.resetAt))
          && r.message == Some(PausedForRateLimit(r.completed, r.total))
          && r.deleted.None? && SyncedDocs(docs0, docs, synced, sha))
    && (r.jobStatus != Some(PausedJob) ==>
          && r.pending == 0 && b.status == Completed && r.rateLimit.None?
          && (r.jobStatus == Some(CompletedJob) <==> r.failed == 0 && r.skippedItems == Some(0))
          && (r.jobStatus == Some(CompletedJob) ==> r.message == Some(SyncCompleted(r.completed)))
          && (r.jobStatus == Some(CompletedWithErrors) ==>
                var summary := ErrorSummary(r.failed, r.skippedItems.value);
                b.errorMessage == Some(summary) && r.message == Some(CompletedWithIssues(summary, r.completed, r.total)))
          && (synced == [] ==> r.deleted.None? && docs == docs0)
          && (synced != [] ==> ReconciledDocs(docs0, docs, synced, sha, SucceededPaths(b.items))))
  }

  /** What a run of job `a`, which ends as `b`, did and reports. */
  predicate RunOutcome(a: Job, b: Job, docs0: map<string, Document>, docs: map<string, Document>,
                       synced: seq<string>, r: SyncResult) {
    Tallied(a, b, synced, r) && Concluded(b, docs0, docs, synced, a.commitSha, r)
  }

  /** Tallying the run does not depend on the job's status fields. */
  lemma TalliedKeeps(a: Job, b: Job, c: Job, synced: seq<string>, r: SyncResult)
    requires Tallied(a, b, synced, r)
    requires c.items == b.items && c.commitSha == b.commitSha
    requires c.completedItems == b.completedItems && c.failedItems == b.failedItems
    ensures Tallied(a, c, synced, r)
  {
  }

  /**
   * The pause of a rate-limited run: with a rate-limit reading, the job is paused with
   * its reset time, which the result reports.
   */
  method PauseJob(client: GitHubClient, store: Store, j: nat) returns (rl: Option<RateLimitSummary>)
    requires j < |store.jobs|
    modifies store`jobs
    ensures rl.Some? <==> client.rateLimit.Some?
    ensures rl.None? ==> store.jobs == old(store.jobs)
    ensures rl.Some? ==>
      && rl.value == RateLimitSummary(client.rateLimit.value.limit, client.rateLimit.value.remaining, client.rateLimit.value.resetAt)
      && store.jobs == old(store.jobs)[j := WithStatus(old(store.jobs[j]), Paused, Some(rl.value.resetAt), None)]
  {
    rl := None;
    var info := client.rateLimit;
    if info.Some? {
      rl := Some(RateLimitSummary(info.value.limit, info.value.remaining, info.value.resetAt));
      store.SetStatus(j, Paused, Some(info.value.resetAt), None);
    }
  }

  /**
   * The two completed branches: the job is stored as completed (with the error summary
   * when something failed or was skipped), then reconciled.
   */
  method Complete(store: Store, j: nat, synced: seq<string>, summary: Option<string>) returns (deleted: Option<nat>)
    requires j < |store.jobs|
    modifies store`jobs, store`documents
    ensures store.jobs == old(store.jobs)[j := WithStatus(old(store.jobs[j]), Completed, None, summary)]
    ensures deleted.None? ==> store.documents == old(store.documents)
    ensures deleted.Some? ==> deleted.value > 0 && synced != []
    ensures synced != [] && SucceededPaths(store.jobs[j].items) != [] ==>
      store.documents == Restricted(old(store.documents), SucceededPaths(store.jobs[j].items))
  {
    store.SetStatus(j, Completed, None, summary);
    deleted := Reconcile(store, j, synced);
  }

  /** `sync_job_update_counts` after the loop, and the counts it reports. */
  method Tally(store: Store, j: nat, r0: SyncResult, ghost a: Job, ghost synced: seq<string>) returns (r: SyncResult)
    requires j < |store.jobs| && store.jobs[j].commitSha == a.commitSha
    requires Advanced(a.items, store.jobs[j].items) && SyncedItems(a.items, store.jobs[j].items, synced)
    modifies store`jobs
    ensures |store.jobs| == |old(store.jobs)| && store.jobs == old(store.jobs)[j := store.jobs[j]]
    ensures store.jobs[j].items == old(store.jobs[j].items) && SameSettings(old(store.jobs[j]), store.jobs[j])
    ensures Tallied(a, store.jobs[j], synced, r)
    ensures r == r0.(completed := r.completed, failed := r.failed, skippedItems := r.skippedItems, pending := r.pending)
  {
    store.UpdateCounts(j);
    var job := store.jobs[j];
    var skipped := Count(job.items, Skipped);
    CountsAddUp(job.items);
    r := r0.(completed := job.completedItems, failed := job.failedItems, skippedItems := Some(skipped),
             pending := |job.items| - job.completedItems - job.failedItems - skipped);
  }

  /** The final status: paused, completed, completed with errors, or (with items left) running. */
  method Conclude(store: Store, j: nat, limited: bool, synced: seq<string>, r1: SyncResult,
                  ghost a: Job, ghost docs0: map<string, Document>)
    returns (r: SyncResult)
    requires j < |store.jobs| && r1.skippedItems.Some? && r1.deleted.None?
    requires store.jobs[j].commitSha == a.commitSha
    requires SyncedItems(a.items, store.jobs[j].items, synced)
    requires SyncedDocs(docs0, store.documents, synced, a.commitSha)
    requires !limited ==> r1.pending == 0 && r1.rateLimit.None?
    requires limited ==> && store.jobs[j].status == (if r1.rateLimit.Some? then Paused else Running)
                         && (r1.rateLimit.Some? ==> store.jobs[j].resetAt == Some(r1.rateLimit.value.resetAt))
    modifies store`jobs, store`documents
    ensures |store.jobs| == |old(store.jobs)| && store.jobs == old(store.jobs)[j := store.jobs[j]]
    ensures store.jobs[j].items == old(store.jobs[j].items) && store.jobs[j].commitSha == old(store.jobs[j].commitSha)
    ensures store.jobs[j].completedItems == old(store.jobs[j].completedItems)
    ensures store.jobs[j].failedItems == old(store.jobs[j].failedItems)
    ensures r == r1.(jobStatus := r.jobStatus, message := r.message, deleted := r.deleted)
    ensures Concluded(store.jobs[j], docs0, store.documents, synced, a.commitSha, r)
  {
    var skipped := r1.skippedItems.value;
    if synced != [] {
      ReconcileKeepsSynced(docs0, store.documents, synced, a.commitSha, a.items, store.jobs[j].items);
    }
    if limited {
      r := r1.(jobStatus := Some(PausedJob), message := Some(PausedForRateLimit(r1.completed, r1.total)));
    } else if r1.pending == 0 && r1.failed == 0 && skipped == 0 {
      var deleted := Complete(store, j, synced, None);
      r := r1.(jobStatus := Some(CompletedJob), message := Some(SyncCompleted(r1.completed)), deleted := deleted);
    } else if r1.pending == 0 {
      var summary := ErrorSummary(r1.failed, skipped);
      var deleted := Complete(store, j, synced, Some(summary));
      r := r1.(jobStatus := Some(CompletedWithErrors), message := Some(CompletedWithIssues(summary, r1.completed, r1.total)),
               deleted := deleted);
    } else {
      r := r1.(jobStatus := Some(RunningJob));
    }
  }

  /**
   * After the batch loop: the counts are recomputed and the final status decided. The
   * facts required are what the loop and the pause leave behind.
   */
  method Finish(store: Store, j: nat, limited: bool, synced: seq<string>, r0: SyncResult,
                ghost a: Job, ghost docs0: map<string, Document>)
    returns (r: SyncResult)
    requires j < |store.jobs| && r0.deleted.None?
    requires store.jobs[j].commitSha == a.commitSha
    requires Advanced(a.items, store.jobs[j].items) && SyncedItems(a.items, store.jobs[j].items, synced)
    requires SyncedDocs(docs0, store.documents, synced, a.commitSha)
    requires !limited ==> Count(store.jobs[j].items, Pending) == 0 && r0.rateLimit.None?
    requires limited ==> && store.jobs[j].status == (if r0.rateLimit.Some? then Paused else Running)
                         && (r0.rateLimit.Some? ==> store.jobs[j].resetAt == Some(r0.rateLimit.value.resetAt))
    modifies store`jobs, store`documents
    ensures |store.jobs| == |old(store.jobs)| && store.jobs == old(store.jobs)[j := store.jobs[j]]
    ensures r.success == r0.success && r.jobId == r0.jobId && r.total == r0.total && r.commitSha == r0.commitSha
    ensures r.rateLimit == r0.rateLimit
    ensures RunOutcome(a, store.jobs[j], docs0, store.documents, synced, r)
  {
    var r1 := Tally(store, j, r0, a, synced);
    ghost var tallied := store.jobs[j];
    r := Conclude(store, j, limited, synced, r1, a, docs0);
    TalliedKeeps(a, tallied, store.jobs[j], synced, r1);
    assert Tallied(a, store.jobs[j], synced, r);
  }

  /**
   * Everything `sync_notes_with_job` does once the job is known: mark it running, run the
   * batches, pause on rate limiting, recount, and decide the final status.
   */
  method RunJob(client: GitHubClient, store: Store, j: nat, r0: SyncResult,
                net: Network, rand: Draws, decode: string -> Option<string>, load: string -> Option<Value>)
    returns (r: SyncResult, synced: seq<string>)
    requires j < |store.jobs| && r0.rateLimit.None? && r0.deleted.None?
    modifies client, store`jobs, store`documents
    ensures |store.jobs| == |old(store.jobs)| && store.jobs == old(store.jobs)[j := store.jobs[j]]
    ensures r.success == r0.success && r.jobId == r0.jobId && r.total == r0.total && r.commitSha == r0.commitSha
    ensures RunOutcome(old(store.jobs[j]), store.jobs[j], old(store.documents), store.documents, synced, r)
  {
    ghost var a := store.jobs[j];
    var sha := store.jobs[j].commitSha;
    store.SetStatus(j, Running, None, None);
    var limited;
    limited, synced := RunBatches(client, store, j, sha, net, rand, decode, load);
    var rl: Option<RateLimitSummary> := None;
    if limited {
      rl := PauseJob(client, store, j);
    }
    r := Finish(store, j, limited, synced, r0.(jobStatus := Some(RunningJob), rateLimit := rl), a, old(store.documents));
  }

  // ---------------------------------------------------------------------------------
  // Resolving the job, and the entry points

  /** A job the resumable lookup can return. */
  predicate Active(job: Job) {
    job.status == Running || job.status == Paused
  }

  /** `sync_job_get_resumable`: the id of the most recent running or paused job. */
  function Resumable(jobs: seq<Job>): (id: Option<nat>)
    ensures id.Some? ==> 1 <= id.value <= |jobs| && Active(jobs[id.value - 1])
    ensures id.Some? ==> forall k :: id.value <= k < |jobs| ==> !Active(jobs[k])
    ensures id.None? ==> forall k :: 0 <= k < |jobs| ==> !Active(jobs[k])
  {
    if jobs == [] then None
    else if Active(jobs[|jobs| - 1]) then Some(|jobs|)
    else Resumable(jobs[..|jobs| - 1])
  }

  /**
   * The wait before resuming `job` at time `now`: only a paused job whose reset is still
   * ahead waits, for the time left until the reset but at most 5 s.
   */
  function ResumeWait(job: Job, now: real): (w: real)
    ensures 0.0 <= w <= ResumeWaitCap
    ensures w > 0.0 <==> job.status == Paused && job.resetAt.Some? && job.resetAt.value > now
    ensures w > 0.0 ==> w <= job.resetAt.value - now && (w < ResumeWaitCap ==> w == job.resetAt.value - now)
  {
    if job.status == Paused && job.resetAt.Some? && job.resetAt.value > now
    then Min(job.resetAt.value - now, ResumeWaitCap)
    else 0.0
  }

  /** The messages of a run that could not read the commit or the tree. */
  predicate FetchFailure(m: Option<Message>) {
    m.Some? && (m.value.CommitRateLimited? || m.value.CommitFailed? || m.value.TreeRateLimited? || m.value.TreeFailed?)
  }

  /**
   * The resolution of the job a run works on (`id`, or 0 when the run stops first): the
   * job given, else the resumable job (after the wait for its reset), else a new job for
   * the latest commit's markdown files. A new job is created only when the commit and
   * the tree are read, the commit is not the last synced one (unless forced), and the
   * tree lists some note. `commitResp` and `treeResp` are the answers to the commit and
   * tree requests, when they were sent; the new job is made of exactly what they held.
   */
  method ResolveJob(client: GitHubClient, store: Store, force: bool, resumeId: nat, net: Network, rand: Draws)
    returns (r: SyncResult, id: nat, ghost created: bool, ghost paths: seq<string>,
             ghost commitResp: Option<Response>, ghost treeResp: Option<Response>)
    requires resumeId <= |store.jobs|
    modifies client, store`jobs
    ensures r.rateLimit.None? && r.deleted.None? && r.completed == 0 && r.failed == 0 && r.pending == 0
    ensures id <= |store.jobs| && (id > 0 <==> r.jobId.Some?) && (id > 0 ==> r.jobId == Some(id))
    ensures created ==> && store.jobs == old(store.jobs) + [NewJob(r.commitSha, paths)] && id == |store.jobs|
                        && paths != [] && (forall p :: p in paths ==> IsNotePath(p))
                        && (force || r.commitSha != store.lastSyncSha) && r.total == |paths|
    ensures !created ==> store.jobs == old(store.jobs)
    ensures resumeId > 0 ==> id == resumeId && !created
    ensures resumeId == 0 && Resumable(old(store.jobs)).Some? ==>
      && id == Resumable(old(store.jobs)).value && !created && r.message == Some(ResumingJob(id))
    ensures id > 0 && !created ==> r.total == |store.jobs[id - 1].items| && r.commitSha == store.jobs[id - 1].commitSha
    ensures id == 0 ==> !created && resumeId == 0 && Resumable(old(store.jobs)).None?
    ensures resumeId == 0 && id > 0 && !created ==> Resumable(old(store.jobs)).Some?
    ensures id > 0 ==> r.success && r.jobStatus.None?
    ensures r.jobStatus.None? || r.jobStatus == Some(SkippedSync)
    ensures !r.success ==> id == 0 && FetchFailure(r.message)
    ensures r.jobStatus == Some(SkippedSync) <==> id == 0 && r.success && !force && r.commitSha == store.lastSyncSha
    ensures r.jobStatus == Some(SkippedSync) ==> r.message == Some(AlreadySynced(r.commitSha))
    ensures id == 0 && r.success && r.jobStatus.None? ==> r.message == Some(NoMarkdownFiles)
    ensures commitResp.Some? <==> resumeId == 0 && Resumable(old(store.jobs)).None?
    ensures commitResp.Some? && commitResp.value.Success() ==> r.commitSha == commitResp.value.data.sha
    ensures commitResp.Some? && !commitResp.value.Success() ==>
      r.message == Some(if commitResp.value.isRateLimited then CommitRateLimited else CommitFailed(commitResp.value.status))
    ensures treeResp.Some? <==> commitResp.Some? && commitResp.value.Success() && (force || r.commitSha != store.lastSyncSha)
    ensures treeResp.Some? && !treeResp.value.Success() ==>
      r.message == Some(if treeResp.value.isRateLimited then TreeRateLimited else TreeFailed(treeResp.value.status))
    ensures created <==> treeResp.Some? && treeResp.value.Success() && MarkdownPaths(treeResp.value.data.tree) != []
    ensures created ==> paths == MarkdownPaths(treeResp.value.data.tree)
  {
    r := Initial;
    id := resumeId;
    created, paths := false, [];
    commitResp, treeResp := None, None;
    if id == 0 {
      var found := Resumable(store.jobs);
      if found.Some? {
        id := found.value;
        var wait := ResumeWait(store.jobs[id - 1], client.now);
        if wait > 0.0 {
          client.Sleep(wait);
        }
        r := r.(message := Some(ResumingJob(id)));
      }
    }
    if id == 0 {
      var sha, err, cresp := LatestCommit(client, net, rand);
      commitResp := Some(cresp);
      if err.Some? {
        return r.(success := false, message := err), 0, false, [], commitResp, None;
      }
      r := r.(commitSha := sha);
      if !force && store.lastSyncSha == sha {
        return r.(message := Some(AlreadySynced(sha)), jobStatus := Some(SkippedSync)), 0, false, [], commitResp, None;
      }
      var files, err2, tresp := ContentTree(client, net, rand);
      treeResp := Some(tresp);
      if err2.Some? {
        return r.(success := false, message := err2), 0, false, [], commitResp, treeResp;
      }
      if files == [] {
        return r.(message := Some(NoMarkdownFiles)), 0, false, [], commitResp, treeResp;
      }
      id := store.CreateJob(sha, files);
      created, paths := true, files;
      r := r.(jobId := Some(id), total := |files|);
    } else {
      var job := store.jobs[id - 1];
      r := r.(jobId := Some(id), total := |job.items|, commitSha := job.commitSha);
    }
  }

  /**
   * `sync_notes_with_job(force, resume_job_id)` with a client that starts at `now`.
   * A run that resolves no job changes nothing; a run that fails to read the commit or
   * the tree is the only unsuccessful one; otherwise the job it resolved (`start`: the
   * given or resumable job, or a new one) runs as `RunOutcome` says, and no other job
   * changes. A resume id must name a job: the source fails on any other. A new job
   * holds the commit answer's `sha` and one item per note path of the tree answer.
   */
  method SyncNotesWithJob(store: Store, force: bool, resumeId: Option<nat>, now: real,
                          net: Network, rand: Draws, decode: string -> Option<string>, load: string -> Option<Value>)
    returns (r: SyncResult, ghost created: bool, ghost paths: seq<string>, ghost start: Job, ghost synced: seq<string>,
             ghost commitResp: Option<Response>, ghost treeResp: Option<Response>)
    requires resumeId.Some? ==> resumeId.value <= |store.jobs|
    modifies store`jobs, store`documents
    ensures r.jobId.None? ==> store.jobs == old(store.jobs) && store.documents == old(store.documents)
    ensures r.jobId.None? ==> r.rateLimit.None? && r.deleted.None? && r.completed == 0 && r.failed == 0
    ensures r.jobId.None? ==> r.jobStatus.None? || r.jobStatus == Some(SkippedSync)
    ensures !r.success ==> r.jobId.None? && FetchFailure(r.message)
    ensures r.jobStatus == Some(SkippedSync) <==> r.jobId.None? && r.success && !force && r.commitSha == old(store.lastSyncSha)
    ensures r.jobStatus == Some(SkippedSync) ==> r.message == Some(AlreadySynced(r.commitSha))
    ensures r.jobId.None? && r.success && r.jobStatus.None? ==> r.message == Some(NoMarkdownFiles)
    ensures resumeId.Some? && resumeId.value > 0 ==> r.jobId == resumeId && !created
    ensures (resumeId.None? || resumeId.value == 0) ==>
      (r.jobId.Some? && !created <==> Resumable(old(store.jobs)).Some?) &&
      (Resumable(old(store.jobs)).Some? ==> r.jobId == Resumable(old(store.jobs)))
    ensures created ==> && r.jobId == Some(|old(store.jobs)| + 1)
                        && start == NewJob(r.commitSha, paths) && paths != [] && (forall p :: p in paths ==> IsNotePath(p))
                        && (force || r.commitSha != old(store.lastSyncSha))
    ensures r.jobId.Some? ==>
      var j := r.jobId.value - 1;
      && |store.jobs| == |old(store.jobs)| + (if created then 1 else 0) && j < |store.jobs|
      && store.jobs == (old(store.jobs) + (if created then [start] else []))[j := store.jobs[j]]
      && (!created ==> start == old(store.jobs)[j])
      && r.success && r.total == |start.items| && r.commitSha == start.commitSha
      && RunOutcome(start, store.jobs[j], old(store.documents), store.documents, synced, r)
    ensures commitResp.Some? <==> (resumeId.None? || resumeId.value == 0) && Resumable(old(store.jobs)).None?
    ensures commitResp.Some? && commitResp.value.Success() ==> r.commitSha == commitResp.value.data.sha
    ensures commitResp.Some? && !commitResp.value.Success() ==>
      r.jobId.None? && r.message == Some(if commitResp.value.isRateLimited then CommitRateLimited else CommitFailed(commitResp.value.status))
    ensures treeResp.Some? <==> commitResp.Some? && commitResp.value.Success() && (force || r.commitSha != old(store.lastSyncSha))
    ensures treeResp.Some? && !treeResp.value.Success() ==>
      r.jobId.None? && r.message == Some(if treeResp.value.isRateLimited then TreeRateLimited else TreeFailed(treeResp.value.status))
    ensures created <==> treeResp.Some? && treeResp.value.Success() && MarkdownPaths(treeResp.value.data.tree) != []
    ensures created ==> paths == MarkdownPaths(treeResp.value.data.tree)
  {
    var client := new GitHubClient(now);
    var id: nat;
    r, id, created, paths, commitResp, treeResp := ResolveJob(client, store, force, if resumeId.Some? then resumeId.value else 0, net, rand);
    synced := [];
    start := NewJob(None, []);
    if id > 0 {
      start := store.jobs[id - 1];
      r, synced := RunJob(client, store, id - 1, r, net, rand, decode, load);
    }
  }

  /** `sync_notes_with_job(resume_job_id=id)` for a job that exists: that job runs, and no other changes. */
  method ResumeJob(store: Store, id: nat, now: real,
                   net: Network, rand: Draws, decode: string -> Option<string>, load: string -> Option<Value>)
    returns (r: SyncResult, ghost synced: seq<string>)
    requires 1 <= id <= |store.jobs|
    modifies store`jobs, store`documents
    ensures |store.jobs| == |old(store.jobs)| && store.jobs == old(store.jobs)[id - 1 := store.jobs[id - 1]]
    ensures r.jobId == Some(id) && r.success
    ensures RunOutcome(old(store.jobs[id - 1]), store.jobs[id - 1], old(store.documents), store.documents, synced, r)
  {
    ghost var created, paths, start, commitResp, treeResp;
    r, created, paths, start, synced, commitResp, treeResp := SyncNotesWithJob(store, false, Some(id), now, net, rand, decode, load);
  }

  /** What `retry_failed_items` returns: a refusal, or the result of the resumed run. */
  datatype RetryResult = NothingToRetry | Retried(result: SyncResult)

  /**
   * `retry_failed_items(job_id)`: the job's failed items with fewer than `MAX_RETRIES`
   * (3) retries are made pending again; when there is none (or no such job) nothing runs
   * and nothing changes, otherwise the job is resumed with those items pending.
   */
  method RetryFailedItems(store: Store, id: nat, now: real,
                          net: Network, rand: Draws, decode: string -> Option<string>, load: string -> Option<Value>)
    returns (rr: RetryResult, ghost synced: seq<string>)
    modifies store`jobs, store`documents
    ensures rr == NothingToRetry <==>
      !(1 <= id <= |old(store.jobs)|) || RetriableCount(old(store.jobs[id - 1].items), MaxRetries) == 0
    ensures rr == NothingToRetry ==> store.jobs == old(store.jobs) && store.documents == old(store.documents)
    ensures rr.Retried? ==>
      && 1 <= id <= |store.jobs| == |old(store.jobs)|
      && store.jobs == old(store.jobs)[id - 1 := store.jobs[id - 1]]
      && rr.result.jobId == Some(id) && rr.result.success
      && RunOutcome(old(store.jobs[id - 1]).(items := ResetFailed(old(store.jobs[id - 1].items), MaxRetries)),
                    store.jobs[id - 1], old(store.documents), store.documents, synced, rr.result)
  {
    var n := store.ResetFailedItems(id, MaxRetries);
    if n == 0 {
      if 1 <= id <= |store.jobs| {
        ResetNothing(old(store.jobs[id - 1].items), MaxRetries);
        assert store.jobs[id - 1] == old(store.jobs[id - 1]);
      }
      return NothingToRetry, [];
    }
    var r;
    r, synced := ResumeJob(store, id, now, net, rand, decode, load);
    rr := Retried(r);
  }

  /** The statuses `resume_sync_job` accepts. */
  predicate CanResume(s: JobStatus) {
    s == Paused || s == Running || s == JobPending
  }

  /** What the resume route answers: 404, 400, or the result of the run. */
  datatype ResumeAnswer = JobNotFound | CannotResume(status: JobStatus) | Resumed(result: SyncResult)

  /**
   * The resume route's guard around `sync_notes_with_job(resume_job_id)`: an unknown job
   * is not found, a completed one cannot be resumed, and only the others run.
   */
  method ResumeSyncJob(store: Store, id: nat, now: real,
                       net: Network, rand: Draws, decode: string -> Option<string>, load: string -> Option<Value>)
    returns (answer: ResumeAnswer, ghost synced: seq<string>)
    modifies store`jobs, store`documents
    ensures answer == JobNotFound <==> !(1 <= id <= |old(store.jobs)|)
    ensures answer.CannotResume? <==> 1 <= id <= |old(store.jobs)| && !CanResume(old(store.jobs[id - 1].status))
    ensures answer.CannotResume? ==> answer.status == Completed
    ensures !answer.Resumed? ==> store.jobs == old(store.jobs) && store.documents == old(store.documents)
    ensures answer.Resumed? ==>
      && 1 <= id <= |store.jobs| == |old(store.jobs)|
      && store.jobs == old(store.jobs)[id - 1 := store.jobs[id - 1]]
      && answer.result.jobId == Some(id) && answer.result.success
      && RunOutcome(old(store.jobs[id - 1]), store.jobs[id - 1], old(store.documents), store.documents, synced, answer.result)
  {
    if !(1 <= id <= |store.jobs|) {
      return JobNotFound, [];
    }
    var status := store.jobs[id - 1].status;
    if !CanResume(status) {
      return CannotResume(status), [];
    }
    var r;
    r, synced := ResumeJob(store, id, now, net, rand, decode, load);
    answer := Resumed(r);
  }

  /** The result of the legacy `sync_notes`. */
  datatype LegacyResult = LegacyResult(
    success: bool,
    added: nat,
    updated: nat,
    deleted: nat,
    errors: seq<Message>,
    commitSha: Option<string>,
    jobId: Option<nat>,
    jobStatus: Option<Reported>,
    skipped: bool)

  /** The `job_status` strings of the result. */
  function StatusName(s: Reported): (name: string)
    ensures name in {"skipped", "running", "paused", "completed", "completed_with_errors"}
  {
    match s
    case SkippedSync => "skipped"
    case RunningJob => "running"
    case PausedJob => "paused"
    case CompletedJob => "completed"
    case CompletedWithErrors => "completed_with_errors"
  }

  /**
   * The fields of the legacy result that do not depend on how success is judged. With
   * failed items but no message the source would list a single `None`; every concluded
   * run reports a message, and the model lists nothing in that case.
   */
  function LegacyOf(r: SyncResult, success: bool): (l: LegacyResult)
    ensures l.success == success && l.added == 0 && l.updated == r.completed
    ensures l.deleted == (if r.deleted.Some? then r.deleted.value else 0)
    ensures l.errors == (if r.failed > 0 && r.message.Some? then [r.message.value] else [])
    ensures l.skipped <==> r.jobStatus == Some(SkippedSync)
    ensures l.commitSha == r.commitSha && l.jobId == r.jobId && l.jobStatus == r.jobStatus
  {
    LegacyResult(success, 0, r.completed, if r.deleted.Some? then r.deleted.value else 0,
                 if r.failed > 0 && r.message.Some? then [r.message.value] else [],
                 r.commitSha, r.jobId, r.jobStatus, r.jobStatus == Some(SkippedSync))
  }

  /** `sync_notes` as written: a run is successful unless its `job_status` is `"failed"`. */
  function LegacyAsWritten(r: SyncResult): LegacyResult {
    LegacyOf(r, r.jobStatus.None? || StatusName(r.jobStatus.value) != "failed")
  }

  /**
   * No run reports the status `"failed"`, so the legacy result claims success even for a
   * run that could not read the commit or the tree (every commit request answering 500,
   * say).
   */
  lemma LegacyAsWrittenHidesFailure(r: SyncResult)
    requires !r.success && r.jobId.None? && r.failed == 0 && FetchFailure(r.message)
    ensures LegacyAsWritten(r).success && LegacyAsWritten(r).errors == []
    ensures LegacyAsWritten(r).success != r.success
  {
    if r.jobStatus.Some? {
      assert StatusName(r.jobStatus.value) != "failed";
    }
  }

  /** `sync_notes` with success taken from the run itself. */
  function Legacy(r: SyncResult): (l: LegacyResult)
    ensures l.success <==> r.success
  {
    LegacyOf(r, r.success)
  }

  /**
   * `sync_notes(force)` as written: the legacy shape of `sync_notes_with_job`, whose
   * success is judged by a `"failed"` status no run reports, so it always claims success,
   * also for a run that could not read the commit or the tree.
   */
  method SyncNotes(store: Store, force: bool, now: real,
                   net: Network, rand: Draws, decode: string -> Option<string>, load: string -> Option<Value>)
    returns (l: LegacyResult, ghost r: SyncResult)
    modifies store`jobs, store`documents
    ensures l == LegacyAsWritten(r) && l.success
    ensures !r.success ==> && FetchFailure(r.message) && r.jobId.None? && l.errors == []
                           && store.jobs == old(store.jobs) && store.documents == old(store.documents)
    ensures l.skipped ==> !force && store.jobs == old(store.jobs) && store.documents == old(store.documents)
    ensures l.jobId.Some? ==> 1 <= l.jobId.value <= |store.jobs|
  {
    var result, created, paths, start, synced, commitResp, treeResp := SyncNotesWithJob(store, force, None, now, net, rand, decode, load);
    r := result;
    if r.jobStatus.Some? {
      assert StatusName(r.jobStatus.value) != "failed";
    }
    l := LegacyAsWritten(result);
  }

  /**
   * `sync_notes` with success taken from the run itself: unsuccessful exactly when the
   * commit or the tree could not be read.
   */
  method SyncNotesCorrected(store: Store, force: bool, now: real,
                            net: Network, rand: Draws, decode: string -> Option<string>, load: string -> Option<Value>)
    returns (l: LegacyResult, ghost r: SyncResult)
    modifies store`jobs, store`documents
    ensures l == Legacy(r)
    ensures !l.success <==> FetchFailure(r.message) && r.jobId.None?
    ensures !l.success ==> store.jobs == old(store.jobs) && store.documents == old(store.documents)
    ensures l.skipped ==> l.success && !force && store.jobs == old(store.jobs) && store.documents == old(store.documents)
    ensures l.jobId.Some? ==> l.success && 1 <= l.jobId.value <= |store.jobs|
  {
    var result, created, paths, start, synced, commitResp, treeResp := SyncNotesWithJob(store, force, None, now, net, rand, decode, load);
    r := result;
    l := Legacy(result);
  }
}

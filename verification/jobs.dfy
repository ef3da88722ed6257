/**
 * The list operations of the board: the moderation rewrite of one job's
 * status, the public feed and the admin queue (jobs of one status, in list
 * order), and the lookup of a job by id.
 */
module Jobs {
  import opened Types

  // ---------------------------------------------------------------------------
  // Moderation: `jobs.map(j => j.id === jobId ? { ...j, status } : j)`

  /**
   * Every job with the given id gets the new status; nothing else about it
   * changes, and every other job stays as it was, at the same place. The prior
   * status is not looked at.
   */
  function SetStatus(jobs: seq<Job>, id: string, status: Status): (r: seq<Job>)
    ensures |r| == |jobs|
    ensures forall k :: 0 <= k < |jobs| && jobs[k].id == id ==> r[k] == jobs[k].(status := status)
    ensures forall k :: 0 <= k < |jobs| && jobs[k].id != id ==> r[k] == jobs[k]
  {
    if jobs == [] then []
    else
      [if jobs[0].id == id then jobs[0].(status := status) else jobs[0]]
      + SetStatus(jobs[1..], id, status)
  }

  predicate HasId(jobs: seq<Job>, id: string) {
    exists k :: 0 <= k < |jobs| && jobs[k].id == id
  }

  /** Moderating an id that no job has leaves the list as it is. */
  lemma SetStatusMissing(jobs: seq<Job>, id: string, status: Status)
    requires !HasId(jobs, id)
    ensures SetStatus(jobs, id, status) == jobs
  {
    var r := SetStatus(jobs, id, status);
    forall k | 0 <= k < |jobs| ensures r[k] == jobs[k] {
      assert jobs[k].id != id;
    }
  }

  /** Approving twice is approving once (and the same for rejecting). */
  lemma SetStatusIdempotent(jobs: seq<Job>, id: string, status: Status)
    ensures SetStatus(SetStatus(jobs, id, status), id, status) == SetStatus(jobs, id, status)
  {
    var once := SetStatus(jobs, id, status);
    var twice := SetStatus(once, id, status);
    forall k | 0 <= k < |jobs| ensures twice[k] == once[k] {
      assert once[k].id == jobs[k].id;
    }
  }

  // ---------------------------------------------------------------------------
  // The feed and the queue: `jobs.filter(j => j.status === status)`

  /** The jobs of one status, in list order. */
  function WithStatus(jobs: seq<Job>, status: Status): (r: seq<Job>)
    ensures |r| <= |jobs|
    ensures forall k :: 0 <= k < |r| ==> r[k].status == status
  {
    if jobs == [] then []
    else (if jobs[0].status == status then [jobs[0]] else []) + WithStatus(jobs[1..], status)
  }

  /**
   * The public feed on the jobs page: only approved jobs, and (WithStatusMembers,
   * WithStatusPositions) every approved job of the list, in list order.
   */
  function Feed(jobs: seq<Job>): (r: seq<Job>)
    ensures |r| <= |jobs|
    ensures forall k :: 0 <= k < |r| ==> r[k].status == Approved
  {
    WithStatus(jobs, Approved)
  }

  /** The admin dashboard's queue: only pending jobs, and every pending job of the list, in list order. */
  function Queue(jobs: seq<Job>): (r: seq<Job>)
    ensures |r| <= |jobs|
    ensures forall k :: 0 <= k < |r| ==> r[k].status == Pending
  {
    WithStatus(jobs, Pending)
  }

  /** Filtering a concatenation filters each part: the result keeps list order. */
  lemma {:induction false} WithStatusAppend(a: seq<Job>, b: seq<Job>, status: Status)
    ensures WithStatus(a + b, status) == WithStatus(a, status) + WithStatus(b, status)
  {
    if a == [] {
      assert a + b == b;
    } else {
      assert (a + b)[1..] == a[1..] + b;
      WithStatusAppend(a[1..], b, status);
    }
  }

  /** A job is in the filtered list exactly when it is in the list and has the status. */
  lemma {:induction false} WithStatusMembers(jobs: seq<Job>, status: Status, j: Job)
    ensures j in WithStatus(jobs, status) <==> j in jobs && j.status == status
  {
    if jobs != [] {
      WithStatusMembers(jobs[1..], status, j);
      assert jobs == [jobs[0]] + jobs[1..];
    }
  }

  predicate Increasing(pos: seq<nat>) {
    forall i, j :: 0 <= i < j < |pos| ==> pos[i] < pos[j]
  }

  /** Every position of a job with the status is among `pos`. */
  predicate Covers(jobs: seq<Job>, status: Status, pos: seq<nat>) {
    forall k :: 0 <= k < |jobs| && jobs[k].status == status ==> k in pos
  }

  /** `picked` is what `jobs` holds at the positions `pos`. */
  predicate PickedAt(jobs: seq<Job>, pos: seq<nat>, picked: seq<Job>) {
    |pos| == |picked| && forall i :: 0 <= i < |pos| ==> pos[i] < |jobs| && jobs[pos[i]] == picked[i]
  }

  /**
   * The filter picks the jobs of the status at increasing positions of the
   * list, and every job of that status is picked: it is exactly those jobs,
   * in list order.
   */
  lemma {:induction false} WithStatusPositions(jobs: seq<Job>, status: Status) returns (pos: seq<nat>)
    ensures PickedAt(jobs, pos, WithStatus(jobs, status)) && Increasing(pos)
    ensures Covers(jobs, status, pos)
  {
    if jobs == [] {
      pos := [];
    } else {
      var rest := WithStatusPositions(jobs[1..], status);
      pos := PositionsCons(jobs, status, rest);
    }
  }

  /** The positions for a list, from those for its tail. */
  lemma PositionsCons(jobs: seq<Job>, status: Status, rest: seq<nat>) returns (pos: seq<nat>)
    requires jobs != []
    requires PickedAt(jobs[1..], rest, WithStatus(jobs[1..], status)) && Increasing(rest)
    requires Covers(jobs[1..], status, rest)
    ensures PickedAt(jobs, pos, WithStatus(jobs, status)) && Increasing(pos)
    ensures Covers(jobs, status, pos)
  {
    var x, tail := jobs[0], jobs[1..];
    var w := WithStatus(tail, status);
    assert jobs == [x] + tail;
    var shifted := Shift(x, tail, rest, w);
    WithStatusCons(x, tail, status);
    if x.status == status {
      pos := [0] + shifted;
      assert WithStatus(jobs, status) == [x] + w;
      PickedFirst(x, tail, shifted, w);
      PrependFirst(shifted);
    } else {
      pos := shifted;
      assert WithStatus(jobs, status) == w;
    }
    CoversCons(jobs, status, rest, pos);
  }

  lemma PickedFirst(x: Job, tail: seq<Job>, pos: seq<nat>, picked: seq<Job>)
    requires PickedAt([x] + tail, pos, picked)
    ensures PickedAt([x] + tail, [0] + pos, [x] + picked)
  {
  }

  lemma PrependFirst(shifted: seq<nat>)
    requires Increasing(shifted) && forall i :: 0 <= i < |shifted| ==> shifted[i] > 0
    ensures Increasing([0] + shifted)
  {
    var pos := [0] + shifted;
    forall i, j | 0 <= i < j < |pos| ensures pos[i] < pos[j] {
      assert pos[j] == shifted[j - 1];
      if i > 0 {
        assert pos[i] == shifted[i - 1];
      }
    }
  }

  lemma CoversCons(jobs: seq<Job>, status: Status, rest: seq<nat>, pos: seq<nat>)
    requires jobs != [] && Covers(jobs[1..], status, rest)
    requires jobs[0].status == status ==> 0 in pos
    requires forall i :: 0 <= i < |rest| ==> rest[i] + 1 in pos
    ensures Covers(jobs, status, pos)
  {
    forall k | 0 <= k < |jobs| && jobs[k].status == status ensures k in pos {
      if k > 0 {
        assert jobs[1..][k - 1] == jobs[k];
        assert k - 1 in rest;
        var i :| 0 <= i < |rest| && rest[i] == k - 1;
      }
    }
  }

  /** Positions in the tail of a list, moved one place on for the whole list. */
  lemma Shift(x: Job, tail: seq<Job>, pos: seq<nat>, picked: seq<Job>) returns (shifted: seq<nat>)
    requires PickedAt(tail, pos, picked) && Increasing(pos)
    ensures PickedAt([x] + tail, shifted, picked) && Increasing(shifted)
    ensures |shifted| == |pos| && forall i :: 0 <= i < |pos| ==> shifted[i] == pos[i] + 1
  {
    shifted := seq(|pos|, i requires 0 <= i < |pos| => pos[i] + 1);
    forall i | 0 <= i < |pos| ensures ([x] + tail)[shifted[i]] == tail[pos[i]] {}
  }

  /**
   * Every job is in exactly one of the feed, the queue and the rejected list:
   * the feed and the queue never share a job, rejected jobs are in neither,
   * and the three sizes add up to the number of jobs.
   */
  lemma {:induction false} StatusPartition(jobs: seq<Job>)
    ensures |Feed(jobs)| + |Queue(jobs)| + |WithStatus(jobs, Rejected)| == |jobs|
    ensures forall j :: j in Feed(jobs) ==> j !in Queue(jobs)
    ensures forall j :: j in jobs && j.status == Rejected ==> j !in Feed(jobs) && j !in Queue(jobs)
  {
    if jobs != [] {
      StatusPartition(jobs[1..]);
    }
  }

  /** The jobs without the given id, in list order. */
  function WithoutId(jobs: seq<Job>, id: string): seq<Job> {
    if jobs == [] then []
    else (if jobs[0].id == id then [] else [jobs[0]]) + WithoutId(jobs[1..], id)
  }

  /**
   * Moderating a job to some status takes it out of the list of every other
   * status and leaves the rest of that list, in order: approving or rejecting
   * empties the queue of that id, rejecting removes it from the feed.
   */
  lemma {:induction false} ModerationLeavesOtherLists(jobs: seq<Job>, id: string, status: Status, other: Status)
    requires status != other
    ensures WithStatus(SetStatus(jobs, id, status), other) == WithoutId(WithStatus(jobs, other), id)
  {
    if jobs != [] {
      var x, tail := jobs[0], jobs[1..];
      var r := SetStatus(jobs, id, status);
      var rt := SetStatus(tail, id, status);
      assert r == [r[0]] + rt;
      assert jobs == [x] + tail;
      WithStatusCons(r[0], rt, other);
      WithStatusCons(x, tail, other);
      ModerationLeavesOtherLists(tail, id, status, other);
      var w := WithStatus(tail, other);
      if x.status == other {
        WithoutIdCons(x, w, id);
        assert WithStatus(jobs, other) == [x] + w;
      } else {
        assert WithStatus(jobs, other) == w;
        assert WithStatus(r, other) == WithStatus(rt, other);
      }
    }
  }

  lemma WithStatusCons(x: Job, s: seq<Job>, status: Status)
    ensures WithStatus([x] + s, status) == (if x.status == status then [x] else []) + WithStatus(s, status)
  {
    assert ([x] + s)[1..] == s;
  }

  lemma WithoutIdCons(x: Job, s: seq<Job>, id: string)
    ensures WithoutId([x] + s, id) == (if x.id == id then [] else [x]) + WithoutId(s, id)
  {
    assert ([x] + s)[1..] == s;
  }

  /** After moderation every job with that id is in the list of its new status. */
  lemma ModeratedJobListed(jobs: seq<Job>, id: string, status: Status, k: nat)
    requires k < |jobs| && jobs[k].id == id
    ensures jobs[k].(status := status) in WithStatus(SetStatus(jobs, id, status), status)
  {
    var r := SetStatus(jobs, id, status);
    assert r[k] == jobs[k].(status := status);
    WithStatusMembers(r, status, r[k]);
  }

  // ---------------------------------------------------------------------------
  // Lookup: `jobs.find(j => j.id === selectedJobId)`

  /** The first job with the given id, if any. */
  function FindById(jobs: seq<Job>, id: string): (r: Option<Job>)
    ensures r.Some? ==> r.value in jobs && r.value.id == id
    ensures r.None? <==> !HasId(jobs, id)
  {
    if jobs == [] then None
    else if jobs[0].id == id then Some(jobs[0])
    else
      var r := FindById(jobs[1..], id);
      assert HasId(jobs, id) ==> HasId(jobs[1..], id) by {
        if HasId(jobs, id) {
          var k :| 0 <= k < |jobs| && jobs[k].id == id;
          assert jobs[1..][k - 1].id == id;
        }
      }
      r
  }

  /** `find` returns the first match: the job at the first position with that id. */
  lemma {:induction false} FindByIdFirst(jobs: seq<Job>, id: string, k: nat)
    requires k < |jobs| && jobs[k].id == id
    requires forall m :: 0 <= m < k ==> jobs[m].id != id
    ensures FindById(jobs, id) == Some(jobs[k])
  {
    if k > 0 {
      FindByIdFirst(jobs[1..], id, k - 1);
    }
  }

  /**
   * The selected job: `jobs.find(j => j.id === selectedJobId)`. With no id
   * selected no job is found; otherwise it is the lookup of that id, so the
   * first job carrying it (FindSelectedFirst).
   */
  function FindSelected(jobs: seq<Job>, selected: Option<string>): (r: Option<Job>)
    ensures selected.None? ==> r.None?
    ensures selected.Some? ==> r == FindById(jobs, selected.value)
    ensures r.Some? ==> selected.Some? && r.value in jobs && r.value.id == selected.value
    ensures r.None? <==> selected.None? || !HasId(jobs, selected.value)
  {
    match selected
    case None => None
    case Some(id) => FindById(jobs, id)
  }

  /** The selected job is the one at the first position carrying the selected id. */
  lemma FindSelectedFirst(jobs: seq<Job>, id: string, k: nat)
    requires k < |jobs| && jobs[k].id == id
    requires forall m :: 0 <= m < k ==> jobs[m].id != id
    ensures FindSelected(jobs, Some(id)) == Some(jobs[k])
  {
    FindByIdFirst(jobs, id, k);
  }

  // ---------------------------------------------------------------------------
  // Posting: `[newJob, ...jobs]`

  /**
   * The job built by the post handler: the draft's fields, approved when an
   * administrator posts it and pending otherwise, posted by the user's email
   * or by "" when nobody is signed in.
   */
  function PostedJob(draft: JobDraft, user: Option<User>, id: string, now: int): (j: Job)
    ensures j.status == Approved <==> IsAdmin(user)
    ensures j.status == Pending <==> !IsAdmin(user)
    ensures j.postedBy == (if user.Some? then user.value.email else "")
    ensures j.title == draft.title && j.company == draft.company && j.location == draft.location
    ensures j.description == draft.description && j.skills == draft.skills
    ensures j.id == id && j.createdAt == now
  {
    Job(id, draft.title, draft.company, draft.location, draft.description, draft.skills,
        if IsAdmin(user) then Approved else Pending,
        if user.Some? then user.value.email else "",
        now)
  }

  /** A job posted by anyone but an administrator stays off the feed until it is approved. */
  lemma {:induction false} PostedJobAwaitsApproval(jobs: seq<Job>, draft: JobDraft, user: Option<User>, id: string, now: int)
    requires !IsAdmin(user)
    ensures var j := PostedJob(draft, user, id, now);
      Queue([j] + jobs) == [j] + Queue(jobs)
      && Feed([j] + jobs) == Feed(jobs)
      && j.(status := Approved) in Feed(SetStatus([j] + jobs, id, Approved))
  {
    var j := PostedJob(draft, user, id, now);
    assert ([j] + jobs)[1..] == jobs;
    ModeratedJobListed([j] + jobs, id, Approved, 0);
  }

  /** A job posted by an administrator goes straight to the front of the feed. */
  lemma {:induction false} AdminPostIsPublished(jobs: seq<Job>, draft: JobDraft, user: Option<User>, id: string, now: int)
    requires IsAdmin(user)
    ensures var j := PostedJob(draft, user, id, now);
      Feed([j] + jobs) == [j] + Feed(jobs) && Queue([j] + jobs) == Queue(jobs)
  {
    var j := PostedJob(draft, user, id, now);
    assert ([j] + jobs)[1..] == jobs;
  }

  // ---------------------------------------------------------------------------
  // Applications refer to jobs

  /** Some job in the list has this id and this title. */
  predicate HasJob(jobs: seq<Job>, id: string, title: string) {
    exists k :: 0 <= k < |jobs| && jobs[k].id == id && jobs[k].title == title
  }

  /** Moderation keeps every job's id and title, so every job still exists afterwards. */
  lemma SetStatusKeepsJobs(jobs: seq<Job>, modId: string, status: Status, id: string, title: string)
    requires HasJob(jobs, id, title)
    ensures HasJob(SetStatus(jobs, modId, status), id, title)
  {
    var k :| 0 <= k < |jobs| && jobs[k].id == id && jobs[k].title == title;
    assert SetStatus(jobs, modId, status)[k].id == id;
  }

  /** Posting puts a job in front and keeps every job that was there. */
  lemma PrependKeepsJobs(jobs: seq<Job>, j: Job, id: string, title: string)
    requires HasJob(jobs, id, title)
    ensures HasJob([j] + jobs, id, title)
  {
    var k :| 0 <= k < |jobs| && jobs[k].id == id && jobs[k].title == title;
    assert ([j] + jobs)[k + 1] == jobs[k];
  }
}

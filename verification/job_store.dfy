/**
 The in-memory mock job store (`services/data.ts`). The store is a sequence
 of jobs, newest first; every operation is a pure function of it, and
 `CreateJob` returns the next store. Delays and promises are not modelled.
 */
module JobStore {
  import opened Wrappers
  import opened Seqs
  import opened Types

  type Store = seq<Job>

  /** Ids are pairwise distinct: the intended invariant of the store. */
  predicate UniqueIds(s: Store) {
    forall i, k :: 0 <= i < k < |s| ==> s[i].id != s[k].id
  }

  predicate HasId(s: Store, id: string) {
    exists i :: 0 <= i < |s| && s[i].id == id
  }

  /**
   The three seed listings. Their `postedAt` stamps (one, two and five days
   before start-up) are supplied by the caller.
   */
  function MockJobs(posted1: string, posted2: string, posted3: string): (s: Store)
    ensures |s| == 3
    ensures UniqueIds(s)
    ensures forall i :: 0 <= i < |s| ==> s[i].status == Published
    ensures s[0].id == "1" && s[1].id == "2" && s[2].id == "3"
    ensures s[0].featured && s[1].featured && !s[2].featured
  {
    [ Job("1", "Senior React Engineer", "Vercel", FullTime, "San Francisco, CA", Remote,
          140000, 190000,
          "We are looking for a Senior React Engineer to help build the future of the web.",
          ["5+ years React", "Next.js expertise", "TypeScript"], posted1,
          "https://vercel.com/careers", ["React", "Next.js", "TypeScript"], true, Published),
      Job("2", "Full Stack Developer", "Supabase", Contract, "Singapore", Remote,
          100000, 150000,
          "Join the open source Firebase alternative. Build cool tools for developers.",
          ["PostgreSQL", "Go", "TypeScript"], posted2,
          "https://supabase.com/careers", ["PostgreSQL", "Open Source", "Go"], true, Published),
      Job("3", "Frontend Architect", "Linear", FullTime, "Remote", Remote,
          160000, 220000,
          "Crafting the standard for issue tracking.",
          ["React", "Performance", "WebGL"], posted3,
          "https://linear.app/careers", ["Performance", "Design System", "React"], false, Published) ]
  }

  predicate IsPublished(j: Job) {
    j.status == Published
  }

  /** `getJobs`: the published jobs, in store order. */
  function GetJobs(s: Store): (r: seq<Job>)
    ensures |r| <= |s|
    ensures IsSubseq(r, s)
    ensures forall i :: 0 <= i < |r| ==> r[i].status == Published
    ensures forall j :: j in r <==> j in s && j.status == Published
    ensures forall j :: multiset(r)[j] == if j.status == Published then multiset(s)[j] else 0
  {
    Filter(s, IsPublished)
  }

  /**
   `getJobs` is exactly the subsequence of the store that keeps every
   published occurrence and nothing else.
   */
  lemma GetJobsExactly(r: seq<Job>, s: Store)
    requires IsSubseq(r, s)
    requires forall j :: multiset(r)[j] == if j.status == Published then multiset(s)[j] else 0
    ensures r == GetJobs(s)
  {
    FilterUnique(r, s, IsPublished);
  }

  /** `getAllJobsAdmin`: the whole store. */
  function GetAllJobsAdmin(s: Store): (r: seq<Job>)
    ensures |r| == |s| && forall i :: 0 <= i < |s| ==> r[i] == s[i]
    ensures IsSubseq(GetJobs(s), r)
  {
    s
  }

  /**
   The admin listing contains every stored job whatever its status, the
   public listing is part of it, and it is strictly longer as soon as one
   job is a draft or archived.
   */
  lemma AdminListsEveryStatus(s: Store)
    ensures |GetAllJobsAdmin(s)| == |s|
    ensures forall i :: 0 <= i < |s| ==> GetAllJobsAdmin(s)[i] == s[i]
    ensures IsSubseq(GetJobs(s), GetAllJobsAdmin(s))
    ensures (exists i :: 0 <= i < |s| && s[i].status != Published) ==> |GetJobs(s)| < |GetAllJobsAdmin(s)|
  {
    if exists i :: 0 <= i < |s| && s[i].status != Published {
      var i :| 0 <= i < |s| && s[i].status != Published;
      FilterDrops(s, IsPublished, i);
    }
  }

  /** Position `k` holds the first job of `s` whose id is `id`. */
  predicate IsFirstWithId(s: Store, id: string, k: int) {
    && 0 <= k < |s|
    && s[k].id == id
    && forall i :: 0 <= i < k ==> s[i].id != id
  }

  /** `getJobById`: the first job with the given id, or `None`. */
  function GetJobById(s: Store, id: string): (r: Option<Job>)
    ensures r.None? <==> !HasId(s, id)
    ensures r.Some? ==> exists k :: IsFirstWithId(s, id, k) && s[k] == r.value
    decreases |s|
  {
    if |s| == 0 then None
    else if s[0].id == id then
      assert IsFirstWithId(s, id, 0);
      Some(s[0])
    else
      var r := GetJobById(s[1..], id);
      assert HasId(s[1..], id) ==> HasId(s, id);
      assert HasId(s, id) ==> HasId(s[1..], id) by {
        if HasId(s, id) {
          var i :| 0 <= i < |s| && s[i].id == id;
          assert s[1..][i - 1].id == id;
        }
      }
      if r.Some? then
        var k :| IsFirstWithId(s[1..], id, k) && s[1..][k] == r.value;
        assert IsFirstWithId(s, id, k + 1);
        r
      else r
  }

  /** In a store with unique ids, a found job is the only one with that id. */
  lemma GetJobByIdUnique(s: Store, id: string, i: int)
    requires UniqueIds(s)
    requires 0 <= i < |s| && s[i].id == id
    ensures GetJobById(s, id) == Some(s[i])
  {
    assert HasId(s, id);
    var r := GetJobById(s, id);
    var k :| IsFirstWithId(s, id, k) && s[k] == r.value;
  }

  /** The record `createJob` stores: the draft stamped published and featured. */
  function NewJob(d: JobDraft, id: string, postedAt: string): (j: Job)
    ensures DraftOf(j) == d
    ensures j.id == id && j.postedAt == postedAt
    ensures j.featured && j.status == Published
  {
    Job(id, d.title, d.company, d.jobType, d.location, d.locationType, d.salaryMin, d.salaryMax,
        d.description, d.requirements, postedAt, d.applicationUrl, d.tags, true, Published)
  }

  /** What `createJob` leaves behind: the new store and the job it resolves to. */
  datatype Created = Created(store: Store, job: Job)

  /**
   `createJob`: the new listing is put in front of the store. The random id
   and the timestamp are supplied by the caller.
   */
  function CreateJob(s: Store, d: JobDraft, id: string, postedAt: string): (c: Created)
    ensures |c.store| == |s| + 1
    ensures c.store[0] == c.job && c.store[1..] == s
    ensures DraftOf(c.job) == d && c.job.id == id && c.job.postedAt == postedAt
    ensures c.job.featured && c.job.status == Published
  {
    var j := NewJob(d, id, postedAt);
    Created([j] + s, j)
  }

  /** After a creation the public listing starts with the new job. */
  lemma CreateThenGetJobs(s: Store, d: JobDraft, id: string, postedAt: string)
    ensures GetJobs(CreateJob(s, d, id, postedAt).store) == [CreateJob(s, d, id, postedAt).job] + GetJobs(s)
  {
    var c := CreateJob(s, d, id, postedAt);
    assert c.store == [c.job] + s;
    FilterCons(c.job, s, IsPublished);
  }

  /**
   After a creation, looking up the new id finds the new job (it is first
   in the store), and looking up any other id finds what it found before.
   */
  lemma CreateThenGetById(s: Store, d: JobDraft, id: string, postedAt: string, other: string)
    ensures GetJobById(CreateJob(s, d, id, postedAt).store, id) == Some(CreateJob(s, d, id, postedAt).job)
    ensures other != id ==> GetJobById(CreateJob(s, d, id, postedAt).store, other) == GetJobById(s, other)
  {
    var c := CreateJob(s, d, id, postedAt);
    assert c.store[1..] == s;
  }

  /** Creating a job with a fresh id keeps the ids of the store distinct. */
  lemma CreatePreservesUniqueIds(s: Store, d: JobDraft, id: string, postedAt: string)
    requires UniqueIds(s)
    requires !HasId(s, id)
    ensures UniqueIds(CreateJob(s, d, id, postedAt).store)
  {
    var t := CreateJob(s, d, id, postedAt).store;
    forall i, k | 0 <= i < k < |t|
      ensures t[i].id != t[k].id
    {
      if i == 0 {
        assert t[k] == s[k - 1];
      } else {
        assert t[i] == s[i - 1] && t[k] == s[k - 1];
      }
    }
  }

  /**
   Ids are not checked for freshness: a stored job that shares the new id
   and differs from the new job can no longer be found by id.
   */
  lemma CreateShadowsDuplicate(s: Store, d: JobDraft, id: string, postedAt: string, i: int)
    requires 0 <= i < |s| && s[i].id == id
    requires s[i] != CreateJob(s, d, id, postedAt).job
    ensures GetJobById(CreateJob(s, d, id, postedAt).store, id) != Some(s[i])
  {
  }

  /** `processPayment`: the mock processor accepts every amount. */
  function ProcessPayment(amount: int): (ok: bool)
    ensures ok
  {
    true
  }
}

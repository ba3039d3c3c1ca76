/**
 The listings page search (`pages/Home.tsx`): a job is shown when the
 lower-cased search term occurs in its lower-cased title, company or one of
 its tags, and its type equals the selected filter (`"all"` admits every
 type). The filter is kept as the page keeps it, a string.
 */
module Listing {
  import opened Seqs
  import opened Text
  import opened Types
  import opened JobStore

  const AllTypes: string := "all"

  /** Some tag of `j` contains the (already lower-cased) term. */
  predicate SomeTagContains(j: Job, t: string) {
    exists k :: 0 <= k < |j.tags| && Contains(Lower(j.tags[k]), t)
  }

  /** The lower-cased term occurs in the lower-cased `s`. */
  ghost predicate OccursIn(s: string, term: string) {
    exists i :: OccursAt(Lower(s), Lower(term), i)
  }

  /**
   `matchesSearch`: the term occurs, ignoring ASCII case, in the title, the
   company or one of the tags.
   */
  predicate MatchesSearch(j: Job, term: string)
    ensures MatchesSearch(j, term) <==>
      || OccursIn(j.title, term) || OccursIn(j.company, term)
      || exists k :: 0 <= k < |j.tags| && OccursIn(j.tags[k], term)
    ensures |term| == 0 ==> MatchesSearch(j, term)
  {
    var t := Lower(term);
    assert SomeTagContains(j, t) <==> exists k :: 0 <= k < |j.tags| && OccursIn(j.tags[k], term) by {
      forall k | 0 <= k < |j.tags|
        ensures Contains(Lower(j.tags[k]), t) <==> OccursIn(j.tags[k], term)
      {
        ContainsIffOccurs(Lower(j.tags[k]), t);
      }
    }
    ContainsIffOccurs(Lower(j.title), t);
    ContainsIffOccurs(Lower(j.company), t);
    Contains(Lower(j.title), t) || Contains(Lower(j.company), t) || SomeTagContains(j, t)
  }

  /** `matchesType`: `"all"` admits every job, any other filter only the type of that name. */
  predicate MatchesType(j: Job, filterType: string)
    ensures filterType == AllTypes ==> MatchesType(j, filterType)
    ensures filterType != AllTypes ==>
      (MatchesType(j, filterType) <==> exists t :: TypeName(t) == filterType && j.jobType == t)
  {
    filterType == AllTypes || TypeName(j.jobType) == filterType
  }

  predicate Matches(j: Job, term: string, filterType: string) {
    MatchesSearch(j, term) && MatchesType(j, filterType)
  }

  /** `filteredJobs`: the jobs matching both the search term and the type filter. */
  function FilterJobs(jobs: seq<Job>, term: string, filterType: string): (r: seq<Job>)
    ensures |r| <= |jobs|
    ensures IsSubseq(r, jobs)
    ensures forall i :: 0 <= i < |r| ==> MatchesSearch(r[i], term) && MatchesType(r[i], filterType)
    ensures forall i :: 0 <= i < |jobs| && MatchesSearch(jobs[i], term) && MatchesType(jobs[i], filterType)
                        ==> jobs[i] in r
    ensures forall j :: multiset(r)[j] == if Matches(j, term, filterType) then multiset(jobs)[j] else 0
  {
    Filter(jobs, j => Matches(j, term, filterType))
  }

  /** An empty search term matches every job, leaving only the type filter. */
  lemma EmptyTermKeepsTypeFilter(jobs: seq<Job>, filterType: string)
    ensures FilterJobs(jobs, "", filterType) == Filter(jobs, j => MatchesType(j, filterType))
  {
    forall i | 0 <= i < |jobs|
      ensures Matches(jobs[i], "", filterType) == MatchesType(jobs[i], filterType)
    {
      ContainsEmpty(Lower(jobs[i].title));
    }
    FilterCongruent(jobs, j => Matches(j, "", filterType), j => MatchesType(j, filterType));
  }

  /** With the filter `"all"` only the search term restricts the result. */
  lemma AllImposesNoTypeRestriction(jobs: seq<Job>, term: string)
    ensures FilterJobs(jobs, term, AllTypes) == Filter(jobs, j => MatchesSearch(j, term))
  {
    FilterCongruent(jobs, j => Matches(j, term, AllTypes), j => MatchesSearch(j, term));
  }

  /** Any other filter keeps only jobs whose type name is exactly the filter. */
  lemma TypeFilterIsExact(jobs: seq<Job>, term: string, t: JobType)
    ensures forall i :: 0 <= i < |FilterJobs(jobs, term, TypeName(t))| ==>
              FilterJobs(jobs, term, TypeName(t))[i].jobType == t
  {
    var r := FilterJobs(jobs, term, TypeName(t));
    forall i | 0 <= i < |r|
      ensures r[i].jobType == t
    {
      TypeNameInjective(t, t);
      TypeNameInjective(r[i].jobType, t);
    }
  }

  /** A filter that is neither `"all"` nor a type name shows nothing. */
  lemma UnknownFilterShowsNothing(jobs: seq<Job>, term: string, filterType: string)
    requires filterType != AllTypes
    requires forall t: JobType :: TypeName(t) != filterType
    ensures FilterJobs(jobs, term, filterType) == []
  {
  }

  /**
   Changing only the letter case of the search term does not change the
   result.
   */
  lemma CaseInsensitive(jobs: seq<Job>, term: string, term': string, filterType: string)
    requires SameUpToCase(term, term')
    ensures FilterJobs(jobs, term, filterType) == FilterJobs(jobs, term', filterType)
  {
    LowerIdentifiesCase(term, term');
    FilterCongruent(jobs, j => Matches(j, term, filterType), j => Matches(j, term', filterType));
  }

  /** Searching for the lower-cased term gives the same result. */
  lemma LowerTermSameResult(jobs: seq<Job>, term: string, filterType: string)
    ensures FilterJobs(jobs, Lower(term), filterType) == FilterJobs(jobs, term, filterType)
  {
    LowerIdempotent(term);
    LowerIdentifiesCase(Lower(term), term);
    CaseInsensitive(jobs, Lower(term), term, filterType);
  }

  /** Filtering the result again with the same term and type changes nothing. */
  lemma FilterJobsIdempotent(jobs: seq<Job>, term: string, filterType: string)
    ensures FilterJobs(FilterJobs(jobs, term, filterType), term, filterType) == FilterJobs(jobs, term, filterType)
  {
    FilterIdempotent(jobs, j => Matches(j, term, filterType));
  }

  /** The page filters the public listing: only published stored jobs appear. */
  lemma HomeShowsOnlyPublished(s: Store, term: string, filterType: string)
    ensures forall i :: 0 <= i < |FilterJobs(GetJobs(s), term, filterType)| ==>
              FilterJobs(GetJobs(s), term, filterType)[i].status == Published
              && FilterJobs(GetJobs(s), term, filterType)[i] in s
  {
    var r := FilterJobs(GetJobs(s), term, filterType);
    forall i | 0 <= i < |r|
      ensures r[i].status == Published && r[i] in s
    {
      assert r[i] in GetJobs(s);
    }
  }
}

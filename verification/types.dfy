/** The job listing record and its enumerations (`types.ts`). */
module Types {

  datatype JobType = FullTime | Contract | Freelance

  /** The string value of each `JobType` enum member. */
  function TypeName(t: JobType): string {
    match t
    case FullTime => "Full-time"
    case Contract => "Contract"
    case Freelance => "Freelance"
  }

  /** Distinct job types have distinct names, and none is called "all". */
  lemma TypeNameInjective(t: JobType, u: JobType)
    ensures TypeName(t) == TypeName(u) <==> t == u
    ensures TypeName(t) != "all"
  {
  }

  datatype LocationType = Remote | OnSite | Hybrid

  datatype Status = Draft | Published | Archived

  /**
   A job listing. Salaries are the numbers the poster entered; JavaScript
   numbers are modelled as integers.
   */
  datatype Job = Job(
    id: string,
    title: string,
    company: string,
    jobType: JobType,
    location: string,
    locationType: LocationType,
    salaryMin: int,
    salaryMax: int,
    description: string,
    requirements: seq<string>,
    postedAt: string,
    applicationUrl: string,
    tags: seq<string>,
    featured: bool,
    status: Status
  )

  /**
   The fields a poster supplies when creating a listing: a `Job` without
   `id`, `postedAt`, `featured` and `status`.
   */
  datatype JobDraft = JobDraft(
    title: string,
    company: string,
    jobType: JobType,
    location: string,
    locationType: LocationType,
    salaryMin: int,
    salaryMax: int,
    description: string,
    requirements: seq<string>,
    applicationUrl: string,
    tags: seq<string>
  )

  /** The caller-supplied part of a job. */
  function DraftOf(j: Job): JobDraft {
    JobDraft(j.title, j.company, j.jobType, j.location, j.locationType, j.salaryMin, j.salaryMax,
             j.description, j.requirements, j.applicationUrl, j.tags)
  }
}

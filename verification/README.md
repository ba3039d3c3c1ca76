# Job board core in Dafny

This project models the small logical core of a client-rendered job board:

- the in-memory mock job store and its five operations: list published jobs, list all jobs, find a job by id, create a job, and the mock payment check;
- the search and type filter of the listings page;
- the three-step post-a-job wizard (`details` → `payment` → `success`), its form, its tag parser and the record it creates;
- the admin dashboard's job count and revenue.

The store is an immutable `seq<Job>`, newest first. Every handler is a pure function, and every asynchronous call is one atomic step.

Modules, one per concern:

| file | module | models |
|---|---|---|
| `wrappers.dfy` | `Wrappers` | `Option`, which stands for `undefined` results |
| `seqs.dfy` | `Seqs` | order-preserving `Filter` and an independent characterisation of it (subsequence plus occurrence counts) |
| `text.dfy` | `Text` | ASCII `toLowerCase`, `includes`, ECMAScript `trim`, `split`/`join` on one separator character |
| `types.dfy` | `Types` | the `Job` record, its enumerations and the creation draft (`Job` minus `id`, `postedAt`, `featured`, `status`) |
| `job_store.dfy` | `JobStore` | `services/data.ts` |
| `listing.dfy` | `Listing` | the `filteredJobs` filter of `pages/Home.tsx` |
| `post_job.dfy` | `PostJob` | the wizard of `pages/PostJob.tsx` |
| `admin.dfy` | `Admin` | the `load` effect of `pages/Admin.tsx` |

Some things the running code gets from its environment. The model takes these as parameters:

- the payment processor, `pay: int -> bool`, in `PostJob.HandlePayment`; the store's own processor is `JobStore.ProcessPayment`. Since its answer may differ from one call to the next, a wizard event `PaymentSubmitted` carries the answer to its own attempt;
- the random id and the ISO timestamp of a new job;
- the `postedAt` stamps of the three seed jobs;
- `Number(...)` parsing of the salary inputs, `toNumber: string -> int`.

The wizard's handlers can only be triggered while their form is on screen. The details form (its inputs and its submit) is shown only at step `details`. The payment form is shown only at step `payment`. The browser submits the details form only when its seven `required` inputs are filled in. `PostJob.Next` dispatches events under the same rules.

Three facts about the code shape the model:

- Creation puts the new record in front of the store (`[newJob, ...jobsStore]`, `services/data.ts:85`), so the model prepends.
- Ids are never checked for uniqueness: the new id is random (`services/data.ts:80`). `CreateJob` therefore accepts any id. Distinct ids are an invariant that `JobStore.CreatePreservesUniqueIds` proves is kept when the caller passes a fresh id. Lookup returns the *first* match, so the new job is always the one found under its id. An older job with the same id can no longer be found by id (`JobStore.CreateShadowsDuplicate`).
- The page branches on the processor's answer (`pages/PostJob.tsx:41`), although the mock processor always answers true (`services/data.ts:95`). The model keeps both branches.

## Model

| member | source | states |
|---|---|---|
| `JobStore.MockJobs` | services/data.ts:3-58 | the seed store has three published jobs with ids "1", "2", "3", pairwise distinct; the first two are featured and the third is not |
| `JobStore.GetJobs` | services/data.ts:60-64 | the result is an order-preserving subsequence of the store, contains exactly the published jobs, and keeps every occurrence of a published job and none of the others |
| `JobStore.GetJobsExactly` | services/data.ts:62 | any subsequence of the store with those occurrence counts is the `getJobs` result, so the listing is uniquely determined |
| `JobStore.GetAllJobsAdmin` | services/data.ts:66-68 | the admin listing has the store's length and holds the store's jobs position by position; the public listing is a subsequence of it |
| `JobStore.AdminListsEveryStatus` | services/data.ts:66-68 | the admin listing is the whole store, element for element, drafts and archived jobs included; the public listing is a subsequence of it and is strictly shorter once any job is unpublished |
| `JobStore.GetJobById` | services/data.ts:70-74 | the result is `None` exactly when no stored job has the id; otherwise it is the job at the first position holding that id |
| `JobStore.GetJobByIdUnique` | services/data.ts:72 | in a store with distinct ids, looking up a stored job's id returns that very job |
| `JobStore.NewJob` | services/data.ts:78-84 | the created record carries every caller-supplied field unchanged (its draft projection is the input draft), plus the given id and timestamp, `featured` true and status `published` |
| `JobStore.CreateJob` | services/data.ts:76-88 | the new store is one longer, its head is the created job, and its tail is the old store unchanged and in order |
| `JobStore.CreateThenGetJobs` | services/data.ts:60-85 | after creation the public listing is the new job followed by the previous public listing |
| `JobStore.CreateThenGetById` | services/data.ts:70-85 | after creation, looking up the new id returns the new job, and looking up any other id returns what it returned before |
| `JobStore.CreatePreservesUniqueIds` | services/data.ts:76-85 | creating a job whose id is not yet stored keeps all ids distinct |
| `JobStore.CreateShadowsDuplicate` | services/data.ts:70-85 | an existing job that shares the new id, and is not identical to the new job, is no longer returned by lookup |
| `JobStore.ProcessPayment` | services/data.ts:91-98 | the mock payment succeeds for every amount |
| `Types.TypeNameInjective` | types.ts:1-5 | the three job-type strings are pairwise distinct and none of them is "all" |
| `Text.Lower` | pages/Home.tsx:25-27 | lower-casing keeps the length, leaves no ASCII capital, keeps every other character, and shifts each capital by 32 |
| `Text.LowerIdempotent` | pages/Home.tsx:25-27 | lower-casing twice gives the same string as lower-casing once |
| `Text.LowerIdentifiesCase` | pages/Home.tsx:25-27 | two strings lower-case to the same string exactly when they differ only in letter case |
| `Text.Contains` | pages/Home.tsx:25-27 | `includes` holds only for a needle no longer than the string, and always for the empty needle |
| `Text.ContainsIffOccurs` | pages/Home.tsx:25-27 | the left-to-right `includes` scan succeeds exactly when the needle occurs at some position of the string |
| `Text.Trim` | pages/PostJob.tsx:54 | the trimmed string neither starts nor ends with white space, and the original is that string with only white space added before and after |
| `Text.TrimUntouched` | pages/PostJob.tsx:54 | a string with no white space at either end is its own trim |
| `Text.Split` | pages/PostJob.tsx:54 | splitting at a separator gives one more piece than there are separators, and no piece contains the separator |
| `Text.SplitThenJoin` | pages/PostJob.tsx:54 | joining the pieces of a split with the separator gives back the original string |
| `Text.JoinThenSplit` | pages/PostJob.tsx:54 | separator-free pieces, once joined, split back into the same pieces |
| `Seqs.Filter` | pages/Home.tsx:24-31 | filtering keeps an order-preserving subsequence of exactly the elements that satisfy the predicate, with their multiplicities |
| `Seqs.FilterUnique` | pages/Home.tsx:24 | any subsequence with those occurrence counts equals the filter result |
| `Seqs.FilterIdempotent` | pages/Home.tsx:24-31 | filtering twice with the same predicate gives the same result as filtering once |
| `Listing.MatchesSearch` | pages/Home.tsx:25-27 | a job matches the search exactly when the lower-cased term occurs at some position of its lower-cased title, company or one of its tags; the empty term matches every job |
| `Listing.MatchesType` | pages/Home.tsx:29 | "all" admits every job; any other filter admits a job exactly when some job type has that name and it is the job's type |
| `Listing.FilterJobs` | pages/Home.tsx:24-31 | the result is an order-preserving subsequence of the input, no longer than it; every returned job matches both the search and the type filter (soundness); every input job matching both is returned, each occurrence of it, and no occurrence of a non-matching job (completeness) |
| `Listing.EmptyTermKeepsTypeFilter` | pages/Home.tsx:25-27 | with an empty search term, the result is the type filter alone |
| `Listing.AllImposesNoTypeRestriction` | pages/Home.tsx:29 | with the filter "all", the result is the search filter alone |
| `Listing.TypeFilterIsExact` | pages/Home.tsx:29 | with a job type's name as the filter, every returned job has exactly that type |
| `Listing.UnknownFilterShowsNothing` | pages/Home.tsx:29 | a filter that is neither "all" nor a type name returns no job |
| `Listing.CaseInsensitive` | pages/Home.tsx:25-27 | two search terms that differ only in letter case give the same result |
| `Listing.LowerTermSameResult` | pages/Home.tsx:25-27 | searching for the lower-cased term gives the same result as searching for the term |
| `Listing.FilterJobsIdempotent` | pages/Home.tsx:24-31 | filtering the result again with the same term and type returns it unchanged |
| `Listing.HomeShowsOnlyPublished` | pages/Home.tsx:15-31 | every job the listings page shows is a published job of the store |
| `PostJob.UpdateField` | pages/PostJob.tsx:25-27 | an input change sets exactly the named field and leaves every other field as it was |
| `PostJob.UpdateSameValue` | pages/PostJob.tsx:25-27 | writing a field's current value back leaves the form unchanged |
| `PostJob.ParseTags` | pages/PostJob.tsx:54 | the tag parser yields (number of commas + 1) tags; the i-th tag is the i-th comma-separated piece of the input with only the surrounding white space removed, so it has no leading or trailing white space and no comma |
| `PostJob.ParseTagsNoComma` | pages/PostJob.tsx:54 | input without a comma yields exactly one tag, the trimmed input |
| `PostJob.ParseTagsEmpty` | pages/PostJob.tsx:54 | an empty tags input yields a single empty tag |
| `PostJob.ParseTagsRoundTrip` | pages/PostJob.tsx:54 | tags that are trimmed and comma-free, joined with commas, parse back to the same tags |
| `PostJob.BuildDraft` | pages/PostJob.tsx:43-55 | the record passed to `createJob` has type Full-time, location mode Remote and the three fixed requirements; it takes the text fields from the form, the salaries as parsed, and the parsed tags |
| `PostJob.Init` | pages/PostJob.tsx:12-23 | the wizard starts at `details`, not loading, with an empty form |
| `PostJob.HandleInputChange` | pages/PostJob.tsx:25-27 | an input change touches only the form, never the step, the loading flag or the store |
| `PostJob.HandleDetailsSubmit` | pages/PostJob.tsx:29-32 | submitting the details moves to `payment` and changes nothing else |
| `PostJob.HandlePayment` | pages/PostJob.tsx:34-59 | the processor is asked for `PRICING` (299); on success exactly one job built from the form is put in front of the store and the step becomes `success`; on failure neither the step nor the store changes; loading is off at the end in both cases |
| `PostJob.PostedJobContents` | pages/PostJob.tsx:43-55 | the job a successful payment publishes carries the given id and timestamp, is featured and published, has the fixed type, location mode and requirements, and carries the form's fields and parsed tags |
| `PostJob.MockPaymentAlwaysPublishes` | pages/PostJob.tsx:39-57 | with the store's mock processor, a payment submit always reaches `success` and puts the new job at the head of the public listing |
| `PostJob.Next` | pages/PostJob.tsx:78-141 | no event moves the step backwards, and the step advances by at most one; `details` moves to `payment` exactly on a submit with all required inputs filled in; past `details` the form no longer changes; `success` is entered exactly on an accepted payment submitted at `payment`; the store changes only on that transition |
| `PostJob.RunInvariant` | pages/PostJob.tsx:12-59 | over any sequence of events, the step never goes back; the store is either unchanged or has exactly one job added in front, and the latter holds exactly when the run newly reached `success` |
| `PostJob.RetryAfterRefusal` | pages/PostJob.tsx:34-58 | after a refused payment the wizard stays at `payment`, and an accepted retry reaches `success` with the retry's job in front of the unchanged store |
| `PostJob.RunFromSuccess` | pages/PostJob.tsx:196-210 | at `success` no event changes anything |
| `PostJob.NextKeepsInvariant` | pages/PostJob.tsx:78-141 | every event keeps the wizard invariant: past `details` the form is complete; before `success` the store is untouched; at `success` exactly one job has been put in front of the store, and its required fields are non-empty |
| `PostJob.RunKeepsInvariant` | pages/PostJob.tsx:12-59 | the wizard invariant holds after any sequence of events from a session where it holds |
| `PostJob.AtMostOneJobPerWizard` | pages/PostJob.tsx:34-59 | one wizard session adds at most one job; it ends at `success` exactly when it added one; the added job's title, company, location, description and URL are non-empty |
| `Admin.Load` | pages/Admin.tsx:12-19 | the dashboard lists every stored job, in order, and its revenue is 299 (the wizard's `PRICING`) times the number of stored jobs |
| `Admin.RevenueZero` | pages/Admin.tsx:10-17 | revenue is 0 before loading and for an empty store, and never negative |
| `Admin.CountCoversEveryStatus` | pages/Admin.tsx:14-17 | the job count is at least the public listing's length, and strictly more once any job is a draft or archived |
| `Admin.PaymentRaisesRevenue` | pages/Admin.tsx:17 | a successful wizard payment raises the dashboard revenue by exactly the price charged; a refused one leaves it unchanged |

## Left out

- Timers, promises and async sequencing: every call is one atomic step. For the same reason the transient `loading = true` state inside a payment submit is not modelled, and neither are overlapping submits while a payment is pending.
- React rendering, JSX, styling, icons and routing (`App.tsx`, `components/Layout.tsx`). The only rendering fact used is which form is on screen at each step.
- `pages/JobDetail.tsx` is pure rendering over `getJobById`. Its "not found" path is the `None` result of `JobStore.GetJobById`.
- `JobStore.CreateJob`: the random id (`Math.random().toString(36)`) and the ISO timestamp are caller-supplied, so their format is not modelled.
- `PostJob.BuildDraft`: `Number(...)` salary parsing is the parameter `toNumber`, and JavaScript numbers (floats, `NaN`) are modelled as integers.
- `Text.Lower`: only ASCII letters are lower-cased. Full Unicode case mapping is not modelled, so `Listing.CaseInsensitive` covers ASCII case differences only.
- PostJob.Next: the browser's check that the URL input holds a syntactically valid URL (`type="url"`) is not modelled. Only the non-emptiness that `required` demands is checked, so the model allows more submits than the page does.
- `PostJob.UpdateField`: the computed key `[e.target.name]` is limited to the eight named inputs of the form. An arbitrary key would add a new property and is not modelled.
- The read operations cannot modify the store: they are pure functions of it. No separate member states this.
- At most one `createJob` call per payment submit follows from the structure of `PostJob.HandlePayment`, which has a single creation branch. No separate member states this.
- `formatCurrency` and `formatDate` (from `lib/utils`, which is not part of this model), the card-number inputs (never read), and navigation after success.

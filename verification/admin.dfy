/**
 The admin dashboard counters (`pages/Admin.tsx`): every stored job is
 listed and counted, and revenue is a flat per-job price times the number
 of stored jobs.
 */
module Admin {
  import opened Types
  import opened JobStore
  import opened PostJob

  /** The per-job price the dashboard assumes. */
  const RevenuePerJob: int := 299

  datatype Dashboard = Dashboard(jobs: seq<Job>, revenue: int)

  /** Before loading: no jobs and no revenue. */
  const Initial: Dashboard := Dashboard([], 0)

  /** The `load` effect: fetch every stored job and derive the revenue. */
  function Load(s: Store): (d: Dashboard)
    ensures |d.jobs| == |s| && forall i :: 0 <= i < |s| ==> d.jobs[i] == s[i]
    ensures d.revenue == PRICING * |s|
  {
    var data := GetAllJobsAdmin(s);
    Dashboard(data, |data| * RevenuePerJob)
  }

  /** Revenue is zero before loading and for an empty store, and never negative. */
  lemma RevenueZero(s: Store)
    ensures Initial.revenue == 0 && Load([]).revenue == 0
    ensures Load(s).revenue >= 0
  {
  }

  /** The count covers drafts and archived jobs too, not just the public listing. */
  lemma CountCoversEveryStatus(s: Store)
    ensures |Load(s).jobs| >= |GetJobs(s)|
    ensures (exists i :: 0 <= i < |s| && s[i].status != Published) ==> |Load(s).jobs| > |GetJobs(s)|
  {
    AdminListsEveryStatus(s);
  }

  /**
   A successful payment in the wizard raises the dashboard revenue by
   exactly the price the wizard charged; a refused one leaves it unchanged.
   */
  lemma PaymentRaisesRevenue(s: Session, pay: int -> bool, toNumber: string -> int, id: string, postedAt: string)
    ensures var r := HandlePayment(s, pay, toNumber, id, postedAt);
      Load(r.store).revenue == Load(s.store).revenue + (if pay(PRICING) then PRICING else 0)
  {
  }
}

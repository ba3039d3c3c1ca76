/**
 The post-a-job wizard (`pages/PostJob.tsx`): a form edited field by field,
 a `details` step whose submission leads to `payment`, and a payment step
 that charges the fixed price and, when the payment processor accepts,
 creates the listing and moves to `success`. Each handler runs atomically;
 the payment processor, the random id, the timestamp and `Number` parsing
 of the salary fields are supplied by the caller.
 */
module PostJob {
  import opened Text
  import opened Types
  import opened JobStore

  /** The price of one listing, charged on every payment submit. */
  const PRICING: int := 299

  datatype Step = Details | Payment | Success

  /** Position of a step in the wizard. */
  function Rank(step: Step): nat {
    match step
    case Details => 0
    case Payment => 1
    case Success => 2
  }

  /** The form fields, all kept as the strings the inputs hold. */
  datatype Field = Title | Company | Location | SalaryMin | SalaryMax | Description | ApplicationUrl | Tags

  datatype Form = Form(
    title: string,
    company: string,
    location: string,
    salaryMin: string,
    salaryMax: string,
    description: string,
    applicationUrl: string,
    tags: string
  )

  const EmptyForm: Form := Form("", "", "", "", "", "", "", "")

  function FieldValue(f: Form, field: Field): string {
    match field
    case Title => f.title
    case Company => f.company
    case Location => f.location
    case SalaryMin => f.salaryMin
    case SalaryMax => f.salaryMax
    case Description => f.description
    case ApplicationUrl => f.applicationUrl
    case Tags => f.tags
  }

  /** `handleInputChange`: the named field takes the new value, the others keep theirs. */
  function UpdateField(f: Form, field: Field, value: string): (r: Form)
    ensures FieldValue(r, field) == value
    ensures forall other :: other != field ==> FieldValue(r, other) == FieldValue(f, other)
  {
    match field
    case Title => f.(title := value)
    case Company => f.(company := value)
    case Location => f.(location := value)
    case SalaryMin => f.(salaryMin := value)
    case SalaryMax => f.(salaryMax := value)
    case Description => f.(description := value)
    case ApplicationUrl => f.(applicationUrl := value)
    case Tags => f.(tags := value)
  }

  /** Forms are determined by their field values. */
  lemma FormExtensional(f: Form, g: Form)
    requires forall field :: FieldValue(f, field) == FieldValue(g, field)
    ensures f == g
  {
    assert FieldValue(f, Title) == FieldValue(g, Title);
    assert FieldValue(f, Company) == FieldValue(g, Company);
    assert FieldValue(f, Location) == FieldValue(g, Location);
    assert FieldValue(f, SalaryMin) == FieldValue(g, SalaryMin);
    assert FieldValue(f, SalaryMax) == FieldValue(g, SalaryMax);
    assert FieldValue(f, Description) == FieldValue(g, Description);
    assert FieldValue(f, ApplicationUrl) == FieldValue(g, ApplicationUrl);
    assert FieldValue(f, Tags) == FieldValue(g, Tags);
  }

  /** Writing back a field's own value leaves the form as it was. */
  lemma UpdateSameValue(f: Form, field: Field)
    ensures UpdateField(f, field, FieldValue(f, field)) == f
  {
    FormExtensional(UpdateField(f, field, FieldValue(f, field)), f);
  }

  /** The tags input: split at every comma, each piece trimmed. */
  function ParseTags(raw: string): (tags: seq<string>)
    ensures |tags| == multiset(raw)[','] + 1
    ensures forall i :: 0 <= i < |tags| ==> |tags[i]| == 0 || (!IsSpace(tags[i][0]) && !IsSpace(tags[i][|tags[i]| - 1]))
    ensures forall i :: 0 <= i < |tags| ==> ',' !in tags[i]
    ensures forall i :: 0 <= i < |tags| ==> StripsSpace(Split(raw, ',')[i], tags[i])
  {
    var parts := Split(raw, ',');
    var r := seq(|parts|, i requires 0 <= i < |parts| => Trim(parts[i]));
    assert forall i :: 0 <= i < |r| ==> ',' !in r[i] by {
      forall i | 0 <= i < |r|
        ensures ',' !in r[i]
      {
        TrimKeepsOut(parts[i], ',');
      }
    }
    r
  }

  /** Without a comma the whole input, trimmed, is the only tag. */
  lemma ParseTagsNoComma(raw: string)
    requires ',' !in raw
    ensures ParseTags(raw) == [Trim(raw)]
  {
    var parts := Split(raw, ',');
    assert multiset(raw)[','] == 0;
    JoinThenSplit([raw], ',');
  }

  /** An empty tags input yields one empty tag. */
  lemma ParseTagsEmpty()
    ensures ParseTags("") == [""]
  {
    ParseTagsNoComma("");
    TrimUntouched("");
  }

  /**
   Tags without commas or surrounding white space, typed joined by commas,
   are parsed back to the same tags.
   */
  lemma ParseTagsRoundTrip(tags: seq<string>)
    requires |tags| > 0
    requires forall i :: 0 <= i < |tags| ==> ',' !in tags[i]
    requires forall i :: 0 <= i < |tags| ==> |tags[i]| == 0 || (!IsSpace(tags[i][0]) && !IsSpace(tags[i][|tags[i]| - 1]))
    ensures ParseTags(Join(tags, ',')) == tags
  {
    JoinThenSplit(tags, ',');
    var parsed := ParseTags(Join(tags, ','));
    forall i | 0 <= i < |tags|
      ensures parsed[i] == tags[i]
    {
      TrimUntouched(tags[i]);
    }
  }

  const FixedRequirements: seq<string> := ["React", "TypeScript", "Node.js"]

  /**
   The record handed to `createJob`: the form's text fields, the salaries
   as parsed by `toNumber`, the parsed tags, and the fixed type, location
   mode and requirements.
   */
  function BuildDraft(f: Form, toNumber: string -> int): (d: JobDraft)
    ensures d.jobType == FullTime && d.locationType == Remote && d.requirements == FixedRequirements
    ensures d.title == f.title && d.company == f.company && d.location == f.location
    ensures d.description == f.description && d.applicationUrl == f.applicationUrl
    ensures d.salaryMin == toNumber(f.salaryMin) && d.salaryMax == toNumber(f.salaryMax)
    ensures d.tags == ParseTags(f.tags)
  {
    JobDraft(f.title, f.company, FullTime, f.location, Remote, toNumber(f.salaryMin), toNumber(f.salaryMax),
             f.description, FixedRequirements, f.applicationUrl, ParseTags(f.tags))
  }

  /** The wizard's state together with the store it posts to. */
  datatype Session = Session(step: Step, loading: bool, form: Form, store: Store)

  /** A freshly opened wizard. */
  function Init(store: Store): (s: Session)
    ensures s.step == Details && !s.loading && s.form == EmptyForm && s.store == store
  {
    Session(Details, false, EmptyForm, store)
  }

  function HandleInputChange(s: Session, field: Field, value: string): (r: Session)
    ensures r.form == UpdateField(s.form, field, value)
    ensures r.step == s.step && r.loading == s.loading && r.store == s.store
  {
    s.(form := UpdateField(s.form, field, value))
  }

  /** `handleDetailsSubmit`: go to the payment step. */
  function HandleDetailsSubmit(s: Session): (r: Session)
    ensures r.step == Payment
    ensures r.loading == s.loading && r.form == s.form && r.store == s.store
  {
    s.(step := Payment)
  }

  /**
   `handlePayment`: ask `pay` for `PRICING`; on acceptance create the job
   from the form and go to `success`, otherwise stay. Loading is off again
   at the end either way.
   */
  function HandlePayment(s: Session, pay: int -> bool, toNumber: string -> int, id: string, postedAt: string): (r: Session)
    ensures !r.loading && r.form == s.form
    ensures pay(PRICING) ==> r.step == Success && |r.store| == |s.store| + 1 && r.store[1..] == s.store
    ensures pay(PRICING) ==> r.store[0] == NewJob(BuildDraft(s.form, toNumber), id, postedAt)
    ensures !pay(PRICING) ==> r.step == s.step && r.store == s.store
  {
    if pay(PRICING) then
      var c := CreateJob(s.store, BuildDraft(s.form, toNumber), id, postedAt);
      s.(step := Success, loading := false, store := c.store)
    else
      s.(loading := false)
  }

  /** The job a successful payment publishes, field by field. */
  lemma PostedJobContents(s: Session, pay: int -> bool, toNumber: string -> int, id: string, postedAt: string)
    requires pay(PRICING)
    ensures var j := HandlePayment(s, pay, toNumber, id, postedAt).store[0];
      && j.id == id && j.postedAt == postedAt && j.featured && j.status == Published
      && j.jobType == FullTime && j.locationType == Remote && j.requirements == FixedRequirements
      && j.title == s.form.title && j.company == s.form.company && j.location == s.form.location
      && j.description == s.form.description && j.applicationUrl == s.form.applicationUrl
      && j.salaryMin == toNumber(s.form.salaryMin) && j.salaryMax == toNumber(s.form.salaryMax)
      && j.tags == ParseTags(s.form.tags)
  {
  }

  /** With the store's own payment processor every payment succeeds. */
  lemma MockPaymentAlwaysPublishes(s: Session, toNumber: string -> int, id: string, postedAt: string)
    ensures HandlePayment(s, ProcessPayment, toNumber, id, postedAt).step == Success
    ensures GetJobs(HandlePayment(s, ProcessPayment, toNumber, id, postedAt).store)
            == [NewJob(BuildDraft(s.form, toNumber), id, postedAt)] + GetJobs(s.store)
  {
    assert ProcessPayment(PRICING);
    CreateThenGetJobs(s.store, BuildDraft(s.form, toNumber), id, postedAt);
  }

  /**
   The browser's own check before the details form submits: the seven
   inputs marked `required` (all but the tags) are non-empty. A number
   input whose text is not a number reads as empty, so it fails this too.
   */
  predicate DetailsComplete(f: Form) {
    && f.title != "" && f.company != "" && f.location != ""
    && f.salaryMin != "" && f.salaryMax != "" && f.description != ""
    && f.applicationUrl != ""
  }

  /** A published job whose required text fields were all filled in. */
  predicate PostedFromCompleteForm(j: Job) {
    j.title != "" && j.company != "" && j.location != "" && j.description != "" && j.applicationUrl != ""
  }

  /**
   What the user can do; each form is only on screen in its own step. A
   payment submit carries the processor's answer to that attempt, so a
   refused attempt can be followed by an accepted one.
   */
  datatype Event =
    | InputChanged(field: Field, value: string)
    | DetailsSubmitted
    | PaymentSubmitted(id: string, postedAt: string, accepted: bool)

  /**
   The effect of one event: the details form (inputs and submit) is shown
   only in `details`, the payment form only in `payment`; an event whose
   form is not shown changes nothing, and the details form submits only
   when its required inputs are filled in.
   */
  function Next(s: Session, e: Event, toNumber: string -> int): (r: Session)
    ensures Rank(r.step) >= Rank(s.step)
    ensures s.step == Details && r.step == Payment <==> e.DetailsSubmitted? && s.step == Details && DetailsComplete(s.form)
    ensures s.step != Details ==> r.form == s.form
    ensures r.step != s.step ==> Rank(r.step) == Rank(s.step) + 1
    ensures r.step == Success && s.step != Success <==> s.step == Payment && e.PaymentSubmitted? && e.accepted
    ensures r.store != s.store ==> s.step == Payment && r.step == Success
  {
    match e
    case InputChanged(field, value) =>
      if s.step == Details then HandleInputChange(s, field, value) else s
    case DetailsSubmitted =>
      if s.step == Details && DetailsComplete(s.form) then HandleDetailsSubmit(s) else s
    case PaymentSubmitted(id, postedAt, accepted) =>
      if s.step == Payment then HandlePayment(s, _ => accepted, toNumber, id, postedAt) else s
  }

  /** A sequence of events, applied in order. */
  function Run(s: Session, events: seq<Event>, toNumber: string -> int): Session
    decreases |events|
  {
    if |events| == 0 then s
    else Run(Next(s, events[0], toNumber), events[1..], toNumber)
  }

  /**
   Over any run the step never moves back, and the store either is
   untouched or has gained exactly one job in front, the latter exactly
   when the run ended in `success` having started before it.
   */
  lemma {:induction false} RunInvariant(s: Session, events: seq<Event>, toNumber: string -> int)
    ensures var r := Run(s, events, toNumber);
      && Rank(r.step) >= Rank(s.step)
      && (r.store == s.store || (|r.store| == |s.store| + 1 && r.store[1..] == s.store))
      && (r.store != s.store <==> s.step != Success && r.step == Success)
    decreases |events|
  {
    if |events| > 0 {
      var m := Next(s, events[0], toNumber);
      RunInvariant(m, events[1..], toNumber);
      if m.step == Success {
        RunFromSuccess(m, events[1..], toNumber);
      }
    }
  }

  /**
   A refused payment leaves the payment form on screen, so the user can
   submit again; an accepted retry then publishes the job under the
   retry's id and timestamp.
   */
  lemma RetryAfterRefusal(s: Session, toNumber: string -> int, id1: string, postedAt1: string, id2: string, postedAt2: string)
    requires s.step == Payment
    ensures var r := Run(s, [PaymentSubmitted(id1, postedAt1, false), PaymentSubmitted(id2, postedAt2, true)], toNumber);
      && r.step == Success
      && r.store == [NewJob(BuildDraft(s.form, toNumber), id2, postedAt2)] + s.store
  {
    var events := [PaymentSubmitted(id1, postedAt1, false), PaymentSubmitted(id2, postedAt2, true)];
    var m := Next(s, events[0], toNumber);
    assert m.step == Payment && m.store == s.store && m.form == s.form;
    var r := Next(m, events[1], toNumber);
    assert events[1..][0] == events[1] && events[1..][1..] == [];
    assert Run(m, events[1..], toNumber) == Run(r, [], toNumber) == r;
  }

  /** Once in `success` nothing changes any more. */
  lemma {:induction false} RunFromSuccess(s: Session, events: seq<Event>, toNumber: string -> int)
    requires s.step == Success
    ensures Run(s, events, toNumber) == s
    decreases |events|
  {
    if |events| > 0 {
      RunFromSuccess(Next(s, events[0], toNumber), events[1..], toNumber);
    }
  }

  /**
   What holds of every session reachable from a wizard opened on `store`:
   past `details` the form is complete; before `success` the store is
   untouched; at `success` exactly one job, built from a complete form,
   has been put in front of it.
   */
  predicate WizardInvariant(s: Session, store: Store) {
    && (s.step != Details ==> DetailsComplete(s.form))
    && (s.step != Success ==> s.store == store)
    && (s.step == Success ==> |s.store| == |store| + 1 && s.store[1..] == store && PostedFromCompleteForm(s.store[0]))
  }

  lemma NextKeepsInvariant(s: Session, e: Event, toNumber: string -> int, store: Store)
    requires WizardInvariant(s, store)
    ensures WizardInvariant(Next(s, e, toNumber), store)
  {
  }

  lemma {:induction false} RunKeepsInvariant(s: Session, events: seq<Event>, toNumber: string -> int, store: Store)
    requires WizardInvariant(s, store)
    ensures WizardInvariant(Run(s, events, toNumber), store)
    decreases |events|
  {
    if |events| > 0 {
      NextKeepsInvariant(s, events[0], toNumber, store);
      RunKeepsInvariant(Next(s, events[0], toNumber), events[1..], toNumber, store);
    }
  }

  /**
   A wizard opened on a store posts at most one job, ends in `success`
   exactly when it posted one, and the posted job's required fields are
   all non-empty.
   */
  lemma AtMostOneJobPerWizard(store: Store, events: seq<Event>, toNumber: string -> int)
    ensures |Run(Init(store), events, toNumber).store| <= |store| + 1
    ensures Run(Init(store), events, toNumber).step == Success
            <==> |Run(Init(store), events, toNumber).store| == |store| + 1
    ensures Run(Init(store), events, toNumber).step == Success
            ==> PostedFromCompleteForm(Run(Init(store), events, toNumber).store[0])
  {
    RunInvariant(Init(store), events, toNumber);
    RunKeepsInvariant(Init(store), events, toNumber, store);
  }
}

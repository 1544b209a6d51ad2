/** The job details page: fixture lookup by route id, the milestone section, the
    Accept button and `handleAccept`. */
module JobDetails {
  import opened Common
  import opened Records
  import MilestoneSync

  /** What the page's `address` variable holds. The page calls `useStateContext`
      with a selector, but the hook takes no argument and returns the whole
      context object; the page therefore binds that object, not an address string. */
  datatype Bound = ContextObject | AddressText(text: Option<string>)

  /** The binding the page actually gets. */
  const PageAddress: Bound := ContextObject

  /** `!!address`: an object is always truthy. */
  predicate BoundTruthy(b: Bound) {
    b.ContextObject? || Truthy(b.text)
  }

  /** `address === owner` for an owner string: an object is never a string. */
  predicate BoundIs(b: Bound, owner: string) {
    b.AddressText? && b.text == Some(owner)
  }

  /** The "Paid"/"Pending" status line of a milestone: "Paid" iff `status === 1`. */
  function StatusText(m: FixtureMilestone): (r: string)
    ensures r == "Paid" <==> m.status == Some(1)
    ensures r == "Pending" <==> m.status != Some(1)
  {
    if m.status == Some(1) then "Paid" else "Pending"
  }

  /** The milestone section: `job.milestones?.length === 0` shows the empty notice;
      any other case maps the list, which throws when `milestones` is absent. */
  datatype Section = NoMilestones | StatusLines(lines: seq<string>) | RenderThrows

  function MilestoneSection(job: Job): (r: Section)
    ensures r.RenderThrows? <==> job.milestones.None?
    ensures r.NoMilestones? <==> job.milestones == Some([])
    ensures r.StatusLines? ==> |r.lines| == |job.milestones.value| > 0
                               && forall i :: 0 <= i < |r.lines| ==> r.lines[i] == StatusText(job.milestones.value[i])
  {
    match job.milestones
    case None => RenderThrows
    case Some(ms) =>
      if |ms| == 0 then NoMilestones
      else StatusLines(seq(|ms|, i requires 0 <= i < |ms| => StatusText(ms[i])))
  }

  /** What the route shows. `PageThrows` is a render that throws: the milestone
      section maps an absent list, so the page shows nothing at all, Accept
      button included. */
  datatype Screen = Loading | PageThrows | Details(job: Job, section: Section, acceptButton: bool)

  /** The page for route id `id`: "Loading..." while no fixture job has that printed
      id; a throw when that job has no milestone list; otherwise the job with its
      milestones and, unless the viewer is the owner, the Accept button. */
  function Render(jobs: seq<Job>, id: string, address: Bound): (r: Screen)
    ensures r.Loading? <==> FindJob(jobs, id).None?
    ensures r.PageThrows? <==> FindJob(jobs, id).Some? && FindJob(jobs, id).value.milestones.None?
    ensures r.Details? ==> r.job == FindJob(jobs, id).value
    ensures r.Details? ==> r.section == MilestoneSection(r.job) && r.job.milestones.Some?
    ensures r.Details? ==> (r.acceptButton <==> !BoundIs(address, r.job.owner))
  {
    match FindJob(jobs, id)
    case None => Loading
    case Some(job) =>
      if MilestoneSection(job).RenderThrows? then PageThrows
      else Details(job, MilestoneSection(job), !BoundIs(address, job.owner))
  }

  /** `handleAccept`: without a truthy address it only alerts; otherwise it goes to
      the freelancer page of the same route id. The result is the navigation made. */
  function HandleAccept(address: Bound, id: string): (r: Option<string>)
    ensures r.Some? <==> BoundTruthy(address)
    ensures r.Some? ==> StripPrefix("/myjob/", r.value) == Some(id)
  {
    if BoundTruthy(address) then Some("/myjob/" + id) else None
  }

  /** With a real address string, on a job that renders, the owner sees no Accept
      button, anyone else does, and accepting needs a non-empty address. */
  lemma OwnerGatingWithAddressString(jobs: seq<Job>, id: string, address: Option<string>)
    requires FindJob(jobs, id).Some? && FindJob(jobs, id).value.milestones.Some?
    ensures Render(jobs, id, AddressText(address)).acceptButton <==> address != Some(FindJob(jobs, id).value.owner)
    ensures HandleAccept(AddressText(address), id).Some? <==> Truthy(address)
  {
  }

  /** As bound on this page, on a job that renders, the Accept button shows even to
      the job's owner, and accepting always navigates, also with no wallet connected. */
  lemma AsBoundEveryoneMayAccept(jobs: seq<Job>, id: string)
    requires FindJob(jobs, id).Some? && FindJob(jobs, id).value.milestones.Some?
    ensures Render(jobs, id, PageAddress).acceptButton
    ensures HandleAccept(PageAddress, id) == Some("/myjob/" + id)
  {
  }

  /** Accepting opens the freelancer page of the same job: the route id carried by
      the path is the page's own, and the freelancer page finds the same job. */
  lemma AcceptOpensSameJob(jobs: seq<Job>, id: string, address: Bound)
    requires Render(jobs, id, address).Details? && HandleAccept(address, id).Some?
    ensures StripPrefix("/myjob/", HandleAccept(address, id).value) == Some(id)
    ensures MilestoneSync.FreelancerLoad(MilestoneSync.InitialView, jobs, id).job == Some(Render(jobs, id, address).job)
  {
  }
}

/** The project details page: the load from the browser store, the status badge,
    who may post a proposal or accept the project, proposal submission and the
    proposal list. */
module ProjectDetails {
  import opened Common
  import opened Records
  import WalletContext
  import ProposalCard
  import Card
  import JobMilestones

  /** A proposal as the page lists it. */
  datatype Proposal = Proposal(description: string, amount: string, freelancer: string, isRejected: bool)

  datatype Page = Page(project: Option<Project>, proposals: seq<Proposal>, isLoading: bool, buttonLoading: bool,
                       amount: string, description: string)

  const InitialPage: Page := Page(None, [], false, false, "", "")

  /** The state after loading, and the navigation made, if any. */
  datatype Loaded = Loaded(page: Page, navigateTo: Option<string>)

  /** The project stored under `project-${id}`, if a project is stored there. */
  function StoredProject(store: Store, id: string): (r: Option<Project>)
    ensures r.Some? <==> ProjectKey(id) in store && store[ProjectKey(id)].ProjectRecord?
    ensures r.Some? ==> store[ProjectKey(id)] == ProjectRecord(r.value)
  {
    if ProjectKey(id) in store && store[ProjectKey(id)].ProjectRecord? then Some(store[ProjectKey(id)].project)
    else None
  }

  /** The load effect: a stored project becomes the page's project; without one the
      page is left as it was and navigates home. */
  function Load(p: Page, store: Store, id: string): (r: Loaded)
    ensures StoredProject(store, id).Some? ==> r == Loaded(p.(project := StoredProject(store, id)), None)
    ensures StoredProject(store, id).None? ==> r == Loaded(p, Some("/"))
  {
    match StoredProject(store, id)
    case Some(project) => Loaded(p.(project := Some(project)), None)
    case None => Loaded(p, Some("/"))
  }

  /** The badge: unapproved is "new" whatever the status; approved is "completed"
      when finished and "ongoing" otherwise. */
  function StatusLabel(project: Project): (r: string)
    ensures r in {"new", "ongoing", "completed"}
    ensures r == "new" <==> !project.isApproved
    ensures r == "completed" <==> project.isApproved && project.status
    ensures r == "ongoing" <==> project.isApproved && !project.status
  {
    if project.isApproved then (if project.status then "completed" else "ongoing") else "new"
  }

  /** The badge as displayed, with the first letter capitalised. */
  function Capitalised(badge: string): string {
    if badge == "new" then "New" else if badge == "ongoing" then "Ongoing" else "Completed"
  }

  /** The details badge and the list card's badge agree except on a finished
      project that was never approved: "New" here, "Completed" on the card. */
  lemma BadgesAgreeUnlessUnapprovedFinished(project: Project)
    ensures Capitalised(StatusLabel(project)) == Card.StatusLabel(project.isApproved, project.status)
            <==> project.isApproved || !project.status
    ensures !project.isApproved && project.status ==>
              Capitalised(StatusLabel(project)) == "New" && Card.StatusLabel(project.isApproved, project.status) == "Completed"
  {
  }

  /** `address === project.owner`: exact, case-sensitive; a null address is never the owner. */
  predicate IsOwner(address: Option<string>, project: Project) {
    address == Some(project.owner)
  }

  /** The milestone panel treats addresses that differ only in letter case as the
      same client, while this page does not treat them as the same owner: any
      other spelling of the owner's address, in upper or lower case, is refused here. */
  lemma OwnerCheckIsCaseSensitive(project: Project, a: string)
    requires a != project.owner && |a| == |project.owner|
    requires forall i :: 0 <= i < |a| ==> LowerChar(a[i]) == LowerChar(project.owner[i])
    ensures !IsOwner(Some(a), project)
    ensures JobMilestones.IsClient(Some(a), Some(project.owner))
  {
    JobMilestones.IsClientIgnoresCase(a, project.owner);
  }

  /** What stands under the proposal form. */
  datatype ProposalControl = PostButton(submitting: bool) | OwnerNotice | StartedNotice

  /** A started project shows "Project already started"; otherwise the owner sees
      "Owner can't post proposals" and anyone else the submit button, disabled and
      captioned "Submitting..." while a submission runs. */
  function Control(p: Page, address: Option<string>, project: Project): (r: ProposalControl)
    ensures r.StartedNotice? <==> project.isAccepted
    ensures r.OwnerNotice? <==> !project.isAccepted && IsOwner(address, project)
    ensures r.PostButton? <==> !project.isAccepted && !IsOwner(address, project)
    ensures r.PostButton? ==> r.submitting == p.buttonLoading
  {
    if project.isAccepted then StartedNotice
    else if IsOwner(address, project) then OwnerNotice
    else PostButton(p.buttonLoading)
  }

  /** The AcceptProject panel shows only to the owner of an approved project. */
  predicate AcceptShown(address: Option<string>, project: Project) {
    IsOwner(address, project) && project.isApproved
  }

  /** The owner can never post on their own project, and anyone who can post
      does not see the accept panel. */
  lemma PostAndAcceptExclusive(p: Page, address: Option<string>, project: Project)
    ensures Control(p, address, project).PostButton? ==> !AcceptShown(address, project)
    ensures AcceptShown(address, project) ==> !Control(p, address, project).PostButton?
  {
  }

  /** The object passed to `createProposal`. */
  datatype ProposalData = ProposalData(id: int, description: string, amount: string)

  datatype Submitted = Submitted(page: Page, call: Option<ProposalData>, navigateTo: Option<string>)

  /** `handleSubmit`. It exists only on the rendered page, which has a project. An
      empty description or amount does nothing; otherwise the proposal goes out with
      the project's id, the page goes home if the call succeeds, and the button is
      released either way. */
  function HandleSubmit(p: Page, outcome: CallOutcome): (r: Submitted)
    requires p.project.Some?
    ensures p.description == "" || p.amount == "" ==> r == Submitted(p, None, None)
    ensures p.description != "" && p.amount != "" ==>
              && r.call == Some(ProposalData(p.project.value.pId, p.description, p.amount))
              && r.page == p.(buttonLoading := false)
              && (r.navigateTo == Some("/") <==> outcome.Resolved?)
              && (outcome.Threw? ==> r.navigateTo.None?)
  {
    if p.description == "" || p.amount == "" then Submitted(p, None, None)
    else
      var data := ProposalData(p.project.value.pId, p.description, p.amount);
      Submitted(p.(buttonLoading := false), Some(data), if outcome.Resolved? then Some("/") else None)
  }

  /** The context carries no `createProposal`, so a submission never gets past the
      call: the page never navigates, and the button is released. */
  lemma ContextSubmissionNeverCompletes(p: Page, outcome: CallOutcome)
    requires p.project.Some? && p.description != "" && p.amount != ""
    ensures HandleSubmit(p, WalletContext.CallThroughContext("createProposal", outcome)).navigateTo.None?
    ensures !HandleSubmit(p, WalletContext.CallThroughContext("createProposal", outcome)).page.buttonLoading
  {
  }

  /** What `getProposalsFromContract(project.pId)` does: it throws, or returns a
      list or null. */
  datatype ProposalsAnswer = FetchThrew | Returned(data: Option<seq<Proposal>>)

  /** `fetchProposals`: the returned list, or the empty list when the answer is
      null, the call throws or there is no project to read `pId` from; loading ends. */
  function FetchProposals(p: Page, answer: ProposalsAnswer): (r: Page)
    ensures r == p.(proposals := r.proposals, isLoading := false)
    ensures p.project.Some? && answer.Returned? && answer.data.Some? ==> r.proposals == answer.data.value
    ensures p.project.None? || answer.FetchThrew? || answer == Returned(None) ==> r.proposals == []
  {
    if p.project.None? then p.(proposals := [], isLoading := false)
    else match answer
      case FetchThrew => p.(proposals := [], isLoading := false)
      case Returned(None) => p.(proposals := [], isLoading := false)
      case Returned(Some(data)) => p.(proposals := data, isLoading := false)
  }

  /** The fetch runs when a contract and a project are both present. */
  predicate FetchTriggered(hasContract: bool, p: Page) {
    hasContract && p.project.Some?
  }

  /** The context carries no `contract`, so the proposal list is never fetched and
      stays empty from the initial state on. */
  lemma ContextNeverFetchesProposals(p: Page, project: Project, address: Option<string>)
    ensures !FetchTriggered("contract" in WalletContext.ProvidedNames, p)
    ensures Proposals(project, InitialPage.proposals, address) == NoProposalsYet
  {
  }

  /** The props the page hands each proposal card: `proposer` and `projectId` are
      not among them, and `isApproved` is the project's flag. */
  function CardProps(project: Project, item: Proposal, index: int): (r: ProposalCard.Props)
    ensures r.proposer.None? && r.projectId.None? && !r.hasCallback
    ensures r.isApproved == project.isApproved && r.isRejected == item.isRejected && r.index == index
  {
    ProposalCard.Props(None, project.isApproved, item.isRejected, None, index, false)
  }

  datatype ProposalSection = NoProposalsYet | Cards(views: seq<ProposalCard.View>)

  /** The list: "No proposals yet. Be the first!" when empty, else one card per
      proposal in order. */
  function Proposals(project: Project, proposals: seq<Proposal>, address: Option<string>): (r: ProposalSection)
    ensures r.NoProposalsYet? <==> |proposals| == 0
    ensures r.Cards? ==> |r.views| == |proposals|
                         && forall i :: 0 <= i < |proposals| ==>
                              r.views[i] == ProposalCard.Render(CardProps(project, proposals[i], i), address)
  {
    if |proposals| == 0 then NoProposalsYet
    else Cards(seq(|proposals|, i requires 0 <= i < |proposals| =>
                     ProposalCard.Render(CardProps(project, proposals[i], i), address)))
  }

  /** Every card the page renders throws, since it never passes `proposer`. */
  lemma EveryProposalCardThrows(project: Project, proposals: seq<Proposal>, address: Option<string>)
    requires |proposals| > 0
    ensures forall i :: 0 <= i < |proposals| ==> Proposals(project, proposals, address).views[i].RenderThrows?
  {
  }

  /** What the list shows after a fetch: nothing to list when the answer is null,
      the call throws or there is no project; otherwise one card per returned
      proposal, in order, built from that proposal's props. */
  lemma FetchedProposalsShown(p: Page, answer: ProposalsAnswer, project: Project, address: Option<string>)
    ensures p.project.None? || answer.FetchThrew? || answer == Returned(None) ||
            (answer.Returned? && answer.data == Some([]))
            ==> Proposals(project, FetchProposals(p, answer).proposals, address) == NoProposalsYet
    ensures p.project.Some? && answer.Returned? && answer.data.Some? && |answer.data.value| > 0 ==>
              var shown := Proposals(project, FetchProposals(p, answer).proposals, address);
              && shown.Cards? && |shown.views| == |answer.data.value|
              && forall i :: 0 <= i < |answer.data.value| ==>
                   shown.views[i] == ProposalCard.Render(CardProps(project, answer.data.value[i], i), address)
  {
  }
}

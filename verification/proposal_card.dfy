/** A proposal card: its status badge, the approve/reject buttons and
    `handleAction`. */
module ProposalCard {
  import opened Common
  import WalletContext

  /** `renderStatus`: approval wins over rejection; neither is "Pending". */
  function RenderStatus(isApproved: bool, isRejected: bool): (r: string)
    ensures r in {"Approved", "Rejected", "Pending"}
    ensures r == "Approved" <==> isApproved
    ensures r == "Rejected" <==> !isApproved && isRejected
    ensures r == "Pending" <==> !isApproved && !isRejected
  {
    if isApproved then "Approved" else if isRejected then "Rejected" else "Pending"
  }

  /** The `projectId` prop, of which the card reads `owner` (possibly `undefined`). */
  datatype ProjectRef = ProjectRef(owner: Option<string>)

  /** The props the card reads; `None` is a prop that was not passed. */
  datatype Props = Props(proposer: Option<string>, isApproved: bool, isRejected: bool,
                         projectId: Option<ProjectRef>, index: int, hasCallback: bool)

  /** The button condition `!isApproved && !isRejected && address === projectId.owner`:
      an address string equal to the owner string. */
  predicate ShowActions(isApproved: bool, isRejected: bool, address: Option<string>, project: ProjectRef) {
    !isApproved && !isRejected && address.Some? && project.owner == address
  }

  datatype View = RenderThrows | Shown(status: string, actions: bool)

  /** The card as rendered. `proposer.toLowerCase()` and `address.toLowerCase()` are
      evaluated first and throw when either is missing; the button condition reads
      `projectId.owner`, which throws when `projectId` is missing, but only once the
      proposal is neither approved nor rejected. */
  function Render(props: Props, address: Option<string>): (r: View)
    ensures r.RenderThrows? <==>
              || props.proposer.None? || address.None?
              || (!props.isApproved && !props.isRejected && props.projectId.None?)
    ensures r.Shown? ==> r.status == RenderStatus(props.isApproved, props.isRejected)
    ensures r.Shown? && r.actions ==> props.projectId.Some?
                                      && ShowActions(props.isApproved, props.isRejected, address, props.projectId.value)
    ensures r.Shown? && props.projectId.Some? && ShowActions(props.isApproved, props.isRejected, address, props.projectId.value)
            ==> r.actions
  {
    if props.proposer.None? || address.None? then RenderThrows
    else if props.isApproved || props.isRejected then Shown(RenderStatus(props.isApproved, props.isRejected), false)
    else match props.projectId
      case None => RenderThrows
      case Some(project) => Shown(RenderStatus(false, false), ShowActions(false, false, address, project))
  }

  /** Buttons appear only on a pending proposal. */
  lemma ActionsOnlyWhilePending(props: Props, address: Option<string>)
    requires Render(props, address).Shown? && Render(props, address).actions
    ensures Render(props, address).status == "Pending"
    ensures address.Some? && props.projectId.value.owner == address
  {
  }

  datatype ProposalCall = Approve(projectId: Option<ProjectRef>, index: int) | Reject(projectId: Option<ProjectRef>, index: int)

  /** What an action did: `loading` afterwards, the contract action invoked, and
      whether `onActionComplete` ran. */
  datatype ActionResult = ActionResult(loading: bool, call: Option<ProposalCall>, callbackRan: bool)

  /** `handleAction(type)`: without a contract nothing happens. Otherwise "approve"
      invokes the approve action and any other type the reject action, with
      `(projectId, index)`. When the action resolves, loading ends and the callback
      runs if given; when it throws nothing follows, so loading stays on. */
  function HandleAction(loading: bool, hasContract: bool, actionType: string, props: Props, outcome: CallOutcome): (r: ActionResult)
    ensures !hasContract ==> r == ActionResult(loading, None, false)
    ensures hasContract ==> r.call.Some? && r.call.value.projectId == props.projectId && r.call.value.index == props.index
    ensures hasContract ==> (r.call.value.Approve? <==> actionType == "approve")
    ensures hasContract && outcome.Resolved? ==> !r.loading && (r.callbackRan <==> props.hasCallback)
    ensures hasContract && outcome.Threw? ==> r.loading && !r.callbackRan
  {
    if !hasContract then ActionResult(loading, None, false)
    else
      var call := if actionType == "approve" then Approve(props.projectId, props.index) else Reject(props.projectId, props.index);
      match outcome
      case Resolved => ActionResult(false, Some(call), props.hasCallback)
      case Threw => ActionResult(true, Some(call), false)
  }

  /** The context carries no `contract`, so with it every action is a no-op. */
  lemma ContextDisablesActions(loading: bool, actionType: string, props: Props, outcome: CallOutcome)
    ensures HandleAction(loading, "contract" in WalletContext.ProvidedNames, actionType, props, outcome)
            == ActionResult(loading, None, false)
  {
  }
}

# DecentHire client — a Dafny model

DecentHire is a freelance-hiring dApp. The Solidity contracts do the real work;
this project models the React client's own logic, with JSX, styling and chain
I/O taken out:

- **Milestone request/approve workflow.** The freelancer's "My Job" page and the
  owner's "Owner View" page each load a job from the static job fixture. They
  normalise its milestones (`requested = false`, `status = status || 0`). They
  exchange the whole milestone list through one browser-storage key,
  `milestoneStatus`. The freelancer requests completion; the owner merges the
  stored list over the fixture by id and then approves or rejects.
- **Local job creation** on the static "Create Job" page. Funding and milestone
  amounts are validated, and milestone amounts are converted from ether to wei.
- **The on-chain milestone panel.** It filters the contract's milestones by job
  and gates Pay and the create form on the client address.
- **The three forms:** Create Project, Update Profile and proposal submission.
  The model covers their validators, field updates and the payloads they send.
- **The shared wallet context:** connect, disconnect, profile write and profile
  read.
- **The small decision functions:** status badges, owner and client gating, the
  navbar's abbreviated address and disconnect popup, and the profile card's
  fallbacks and links.
- **The hand-over of a project** from the project list to its details page, under
  the storage key `project-${pId}`.

Each page or component is one Dafny module, except that `MilestoneSync` covers
both job views (MyJob.jsx and JobOwner.jsx), which share one store key and one
record; `Common`, `Units` and `Records` are shared modules. `Common` holds the JavaScript semantics the
pages rely on:

- truthiness of possibly-`undefined` strings (`Option<string>`);
- `trim`, and ASCII `toLowerCase`;
- `Number#toString` on integers, proved injective;
- `String#slice` with negative indices;
- removing a route prefix.

`Units` holds the ether/wei scaling. `Records` holds the shared entities:

- the fixture job and its milestones;
- the milestone record the two job views exchange;
- the project record;
- the browser store, a map from key to parsed JSON value.

Events, contract calls and clocks are parameters:

- a contract call is an outcome (`Resolved`/`Threw`, or a richer datatype where the
  answer matters);
- `Date.now()` is a fresh-id argument;
- a cross-tab `storage` event is an explicit reload.

## Discrepancies between files

The model keeps the code as written. Each of the following is stated as a lemma.

- **Two status-badge rules.**
  - The project card shows "Completed" for any finished project.
  - The details page shows "new" for any unapproved one, finished or not.
  - `ProjectDetails.BadgesAgreeUnlessUnapprovedFinished` proves they agree exactly
    when the project is approved or unfinished.
- **Case sensitivity.**
  - The milestone panel's client check ignores letter case.
  - The details page's owner check does not: any other spelling of the owner's
    address in upper or lower case is refused there
    (`ProjectDetails.OwnerCheckIsCaseSensitive`).
- **Profile keys.** Update Profile sends the name as `title` and the about text as
  `description`, but the context reads `name` and `about`. Both reach the contract
  as `undefined` (`UpdateProfile.NameAndAboutNeverReachContract`).
- **The freelancer never reads the store.** A reload of "My Job" forgets the
  owner's approval (`MilestoneSync.FreelancerReloadForgetsApproval`). Worse, the
  freelancer page writes back its own list, which still carries the fixture
  statuses. A completion request made there after an approval overwrites the stored
  approval, and the owner's next reload shows that milestone as Pending again
  (`MilestoneSync.RequestOverwritesApproval`).
- **`useStateContext` ignores its argument.** JobDetails passes a selector, but the
  hook returns the whole context object. The page's `address` is therefore that
  object, which is always truthy and never equal to the owner string. So on any job
  with a milestone list everyone, the owner included, sees Accept, and accepting
  never asks for a wallet (`JobDetails.AsBoundEveryoneMayAccept`). A fixture job
  without a milestone list makes the page throw while mapping the list at
  JobDetails.jsx:47, so nothing is shown for it, Accept included.
- **Names the pages use but nobody provides.**
  - `connectWallet` takes `getContracts` from `useContracts()`, which does not
    return it. A connect therefore stops right after setting the address, and
    contracts never become ready (`WalletContext.HookNeverConnectsContracts`).
  - The context object carries no `contract`, `createProposal` or
    `getProposalsFromContract`. So the proposal fetch never runs
    (`ProjectDetails.ContextNeverFetchesProposals`) and a proposal submission never
    completes (`ProjectDetails.ContextSubmissionNeverCompletes`).
  - Proposal actions are no-ops (`ProposalCard.ContextDisablesActions`).
  - The context object carries no `createProject`. Every valid Create Project
    submit throws: the form is kept and the page never navigates
    (`CreateProject.ContextSubmitNeverCompletes`).
  - The context object carries no `createMilestone` and no `payMilestone`. Every
    milestone create and every Pay click throws, so the panel's form is never
    cleared and no fetch follows (`JobMilestones.ContextNeverCreatesOrPays`).
- **Proposal cards.** The details page passes no `proposer` and no `projectId` to
  each proposal card. The card calls `proposer.toLowerCase()` before anything else,
  so every card it would render throws (`ProjectDetails.EveryProposalCardThrows`).
- **The project details route.** The project list navigates to
  `/projectdetails/${pId}`. The application's route table (client/src/App.jsx:19-27)
  registers no such path, so a click lands on its catch-all "404 Not Found". The
  route table itself is not part of this model.

## Model

| member | source | states |
|---|---|---|
| Common.TrimEmptyIffBlank | client/src/pages/CreateProject.jsx:24 | `s.trim() === ""` holds exactly when every character of `s` is JavaScript whitespace |
| Common.Trim | client/src/pages/CreateProject.jsx:24 | `trim()` returns a string no longer than its input that neither starts nor ends with whitespace; `TrimEmptyIffBlank` says when it is empty |
| Common.ToLower | client/src/components/JobMilestones.jsx:18 | `toLowerCase()` keeps the length, turns each upper-case ASCII letter into its lower-case letter, keeps every other character, and leaves no upper-case letter |
| Common.IntToString | client/src/components/JobMilestones.jsx:28 | `toString()` of an integer is non-empty and starts with "-" exactly for a negative number; `IntToStringInjective` says it determines the number |
| Common.IntToStringInjective | client/src/components/JobMilestones.jsx:28 | two integers print to the same decimal string exactly when they are equal, so comparing `toString()` results compares ids |
| Common.StripPrefix | client/src/pages/JobDetails.jsx:31 | a path splits into a route prefix and its parameter exactly when it starts with that prefix, and the prefix followed by the parameter gives the path back |
| Common.SliceSplits | client/src/components/Navbar.jsx:53 | `slice(0, k)` followed by `slice(k)` gives the string back |
| Common.Slice | client/src/components/Navbar.jsx:53 | `slice(start, end)` is the substring between in-range indices, runs to the end when `end` is past it, is empty when `end` is not after `start`, and counts a negative `start` from the end |
| Common.SliceFrom | client/src/components/Navbar.jsx:53 | `slice(start)` is the suffix from an in-range start, empty past the end, the last `-start` characters for a negative start, and the whole string when the negative start reaches before the beginning |
| Units.EthToWei | client/src/pages/createJob.jsx:201 | `parseUnits(x, 'ether')` is x × 10^18 and is defined exactly when that is a whole number of wei; a positive amount gives a positive wei value |
| Units.WeiRoundTrip | client/src/pages/createJob.jsx:201 | converting wei to ether and back gives the same wei, and a convertible ether amount converts back to itself |
| Records.FindJob | client/src/pages/MyJob.jsx:16 | the job found is the first fixture job whose printed id is the route id; nothing is found only when no job's printed id matches |
| Records.FindJobByPrintedId | client/src/pages/JobOwner.jsx:13 | the route id printed from a fixture job's id finds a job with that id, and that very job when fixture ids are unique |
| Records.ProjectKeysDistinct | client/src/components/DisplayProjects.jsx:10 | two projects share a storage key exactly when their ids are equal, and no project key is the milestone key |
| MilestoneSync.NormaliseAll | client/src/pages/JobOwner.jsx:20-24 | a missing milestone list loads as empty; every milestone keeps its id, description and amount, has `requested` false, and has status `status \|\| 0` |
| MilestoneSync.FirstWithId | client/src/pages/JobOwner.jsx:29 | `stored.find` by id: the index found holds the id and no earlier entry does; nothing is found only when no entry has the id |
| MilestoneSync.Merge | client/src/pages/JobOwner.jsx:26-31 | length, order, ids, descriptions and amounts are preserved; a milestone takes `requested` and `status` from the first stored entry with its id, and stays as it was without one |
| MilestoneSync.FreelancerLoad | client/src/pages/MyJob.jsx:16-29 | an unknown id leaves the view as it was; a known id shows that job with its normalised milestones, whatever the store holds |
| MilestoneSync.OwnerLoad | client/src/pages/JobOwner.jsx:12-35 | an unknown id leaves the view as it was; a known id shows the normalised milestones, merged over a stored list when one is stored |
| MilestoneSync.RequestCompletion | client/src/pages/MyJob.jsx:34-36 | length is preserved; exactly the milestones with the id get `requested` true, and every other milestone is unchanged |
| MilestoneSync.Decide | client/src/pages/JobOwner.jsx:54-58 | length is preserved; each milestone with the id gets `requested` false and status 1 or 0 as accepted or rejected, and every other milestone is unchanged |
| MilestoneSync.Persist | client/src/pages/JobOwner.jsx:60 | the milestone key then holds exactly the updated list, and every other key is unchanged |
| MilestoneSync.FreelancerRequest | client/src/pages/MyJob.jsx:32-43 | the request changes the view's list as `RequestCompletion` does and stores exactly that list; the job is kept |
| MilestoneSync.OwnerDecide | client/src/pages/JobOwner.jsx:53-61 | the decision changes the view's list as `Decide` does and stores exactly that list; the job is kept |
| MilestoneSync.OwnerRowOf | client/src/pages/JobOwner.jsx:83-86 | the status reads "Approved" exactly when status is 1, and Approve/Reject are offered exactly when status is 0 and completion was requested |
| MilestoneSync.FreelancerRowOf | client/src/pages/MyJob.jsx:67-81 | "Paid" exactly when status is 1; "Request Completion" exactly when status is 0 and not requested; "Completion Requested" exactly when status is 0 and requested; never both, and neither when paid |
| MilestoneSync.OwnerScreen | client/src/pages/JobOwner.jsx:63-86 | "Job not found" exactly without a job, "No milestones defined." exactly with a job and no milestones, otherwise one row per milestone in order |
| MilestoneSync.FreelancerScreen | client/src/pages/MyJob.jsx:47-81 | "Job not found" exactly without a job, "No milestones defined." exactly with a job and no milestones, otherwise one row per milestone in order |
| MilestoneSync.UnknownIdShowsNotFound | client/src/pages/JobOwner.jsx:13-17 | a route id that matches no fixture job shows "Job not found" on both views |
| MilestoneSync.RequestIdempotent | client/src/pages/MyJob.jsx:34-36 | requesting the same milestone twice is the same as requesting it once |
| MilestoneSync.RequestKeepsShapeAndStatus | client/src/pages/MyJob.jsx:34-36 | a request keeps length, order, ids, descriptions, amounts and every status |
| MilestoneSync.RequestHidesButton | client/src/pages/MyJob.jsx:70-81 | after a request the milestone no longer offers "Request Completion", and shows "Completion Requested" exactly when it is unpaid |
| MilestoneSync.DecideIdempotent | client/src/pages/JobOwner.jsx:54-58 | repeating the same decision changes nothing further |
| MilestoneSync.DecisionClosesRequest | client/src/pages/JobOwner.jsx:53-86 | after a decision Approve/Reject is no longer offered, and the status reads "Approved" exactly when accepted |
| MilestoneSync.MergeOwnList | client/src/pages/JobOwner.jsx:26-31 | merging a list with unique ids over a list of the same shape yields the stored list itself |
| MilestoneSync.DecisionSurvivesReload | client/src/pages/JobOwner.jsx:53-60 | with unique ids, reloading the owner view after a decision reproduces the decided list exactly |
| MilestoneSync.RequestReachesOwner | client/src/pages/MyJob.jsx:39 | once a freelancer request is stored, the owner's load shows exactly the freelancer's list, and offers Approve/Reject exactly on unpaid milestones with the requested id |
| MilestoneSync.FreelancerReloadForgetsApproval | client/src/pages/MyJob.jsx:21-26 | after the owner approves a milestone that is pending in the fixture, the owner's reload shows "Approved" while a freelancer reload offers "Request Completion" again |
| MilestoneSync.RequestOverwritesApproval | client/src/pages/MyJob.jsx:32-43 | a freelancer request made after the owner approved a pending milestone overwrites the stored approval, and the owner's reload shows it Pending again |
| CreateJob.HandleCreateJob | client/src/pages/createJob.jsx:161-185 | an empty title or an empty, non-numeric or non-positive funding changes nothing; otherwise exactly one job with no milestones is appended and becomes the job being edited, all else unchanged |
| CreateJob.ReplaceById | client/src/pages/createJob.jsx:211-213 | length is preserved; every job with the updated job's id is replaced by it, and every other job is unchanged |
| CreateJob.HandleCreateMilestone | client/src/pages/createJob.jsx:187-218 | rejected inputs, an amount not expressible in wei, or no job being edited change nothing; otherwise one pending milestone worth amount × 10^18 wei is appended, earlier milestones are kept in order, the job is replaced by id and the two inputs are cleared |
| CreateJob.HandleResetForm | client/src/pages/createJob.jsx:220-226 | the four inputs and the job being edited return to their initial values, and the created jobs are kept |
| CreateJob.Controls | client/src/pages/createJob.jsx:246-256 | "Create Job" shows exactly while no job is being edited, and the milestone form exactly while one is |
| CreateJob.CreateAndResetSwapControls | client/src/pages/createJob.jsx:246-256 | a successful create hides "Create Job" and shows the milestone form, a rejected one changes no control, and a reset shows "Create Job" again |
| CreateJob.InitialCoherent | client/src/pages/createJob.jsx:154-159 | the initial page satisfies the invariant: the job being edited is among the created jobs, and every milestone is pending with a positive amount |
| CreateJob.CreateJobKeepsCoherent | client/src/pages/createJob.jsx:172-182 | creating a job preserves that invariant |
| CreateJob.CreateMilestoneKeepsCoherent | client/src/pages/createJob.jsx:198-213 | adding a milestone preserves that invariant |
| CreateJob.ResetKeepsCoherent | client/src/pages/createJob.jsx:220-226 | resetting preserves that invariant |
| JobMilestones.IsClient | client/src/components/JobMilestones.jsx:18 | the viewer is the client exactly when both addresses are missing, or both are present and equal after lower-casing |
| JobMilestones.IsClientIgnoresCase | client/src/components/JobMilestones.jsx:18 | addresses that differ only in letter case are the same client |
| JobMilestones.BelongsToIffSameJob | client/src/components/JobMilestones.jsx:28 | comparing printed job ids is comparing the ids |
| JobMilestones.ForJob | client/src/components/JobMilestones.jsx:26-31 | the filtered list is no longer than the input, and a milestone is in it exactly when it is in the input and belongs to the job; `ForJobSelectsInOrder` adds order and multiplicity |
| JobMilestones.ForJobSelectsInOrder | client/src/components/JobMilestones.jsx:26-31 | the filtered list is the job's milestones at strictly increasing positions of the input, every matching position included once, in input order |
| JobMilestones.ReadStep | client/src/components/JobMilestones.jsx:26-30 | reading one more index extends the collected list by that milestone exactly when it belongs to the job |
| JobMilestones.FetchMilestones | client/src/components/JobMilestones.jsx:21-36 | without a milestone contract nothing changes; a failed read leaves the list unchanged; otherwise the list becomes the job's milestones at indices 0 .. total-1, in index order |
| JobMilestones.RowOf | client/src/components/JobMilestones.jsx:81-86 | "Paid" exactly when status is 1; Pay is offered exactly to the client on an unpaid milestone, and pays the milestone's id with a value equal to its amount |
| JobMilestones.Render | client/src/components/JobMilestones.jsx:66-95 | the empty notice shows exactly with no milestones, there is one row per milestone, the create form shows exactly to the client, and nobody else is offered Pay |
| JobMilestones.AfterCreate | client/src/components/JobMilestones.jsx:42-51 | a successful create clears both inputs, keeps the list and fetches again; a failed one changes nothing and does not fetch |
| JobMilestones.AfterPay | client/src/components/JobMilestones.jsx:53-60 | a payment leaves the panel as it is and fetches again exactly when the call succeeds |
| JobMilestones.CreateThenFetch | client/src/components/JobMilestones.jsx:42-51 | a successful create followed by its fetch shows the job's milestones as the contract now holds them, with both inputs empty |
| JobMilestones.ContextNeverCreatesOrPays | client/src/components/JobMilestones.jsx:6-12 | with this context, creating a milestone and paying one both throw: nothing is cleared and nothing is fetched |
| JobMilestones.ClientPaysUnpaidOfJob | client/src/components/JobMilestones.jsx:84-91 | over the filtered list, the client's Pay buttons are exactly the job's unpaid milestones, each paying its own id and amount, in read order |
| JobMilestones.PayOfferedAfterFetch | client/src/components/JobMilestones.jsx:21-91 | after a successful fetch the client is offered Pay on exactly the job's status-0 milestones in read order, and anyone else on none |
| CreateProject.HandleChange | client/src/pages/CreateProject.jsx:19-21 | only the field named by the input id changes, and it takes the typed value |
| CreateProject.IsFormValid | client/src/pages/CreateProject.jsx:23-25 | every field of the form is non-empty after trimming; `ValidIffNoBlankField` gives its meaning |
| CreateProject.ValidIffNoBlankField | client/src/pages/CreateProject.jsx:23-25 | the form is valid exactly when no field is empty or whitespace-only |
| CreateProject.ValidFiveFields | client/src/pages/CreateProject.jsx:9-25 | on the five-field form, validity is each of title, description, budget, deadline and image being non-blank |
| CreateProject.BlankFieldInvalidates | client/src/pages/CreateProject.jsx:23-25 | a form with any blank field is invalid |
| CreateProject.HandleSubmit | client/src/pages/CreateProject.jsx:27-51 | an invalid form makes no call and changes nothing; a valid one is sent as is; success resets the form to five empty fields and goes home; failure keeps the form; loading ends false either way |
| CreateProject.NoResubmitAfterSuccess | client/src/pages/CreateProject.jsx:37-41 | right after a successful submit, submitting again makes no second call |
| CreateProject.ContextSubmitNeverCompletes | client/src/pages/CreateProject.jsx:6-45 | with this context, a valid submit throws: the form is sent but kept, loading ends, and the page never navigates |
| UpdateProfile.HandleChange | client/src/pages/UpdateProfile.jsx:18-23 | only the named field changes, and it takes the typed value |
| UpdateProfile.RequiredFilled | client/src/pages/UpdateProfile.jsx:28 | name, image and about are all non-empty strings, with no trimming; `OptionalFieldsMayBeEmpty` and `HandleSubmit` rely on it |
| UpdateProfile.Payload | client/src/pages/UpdateProfile.jsx:40-47 | name is sent as `title`, about as `description`, email as `mail`; image, twitter and github keep their names; no `name` or `about` key is sent |
| UpdateProfile.HandleSubmit | client/src/pages/UpdateProfile.jsx:26-54 | a missing name, image or about alerts and makes no call; otherwise a context that is not ready alerts and makes no call; otherwise the profile write runs, success goes to the profile, failure alerts, and loading ends false |
| UpdateProfile.OptionalFieldsMayBeEmpty | client/src/pages/UpdateProfile.jsx:28-31 | name, image and about alone satisfy the required-field check |
| UpdateProfile.NameAndAboutNeverReachContract | client/src/pages/UpdateProfile.jsx:40-47 | the contract receives `undefined` for name and about, while image, mail, twitter and github arrive |
| WalletContext.ConnectWallet | client/src/context/stateContext.jsx:19-38 | loading ends false whatever happens; without a provider or account access nothing else changes; the address is set once known; contracts and readiness are set only after the contracts are obtained |
| WalletContext.DisconnectWallet | client/src/context/stateContext.jsx:41-45 | address and contracts are cleared and readiness is false; `isLoading` is unchanged |
| WalletContext.TransitionsKeepConsistent | client/src/context/stateContext.jsx:12-45 | connect, disconnect and the initial state all keep readiness tied to a session with an address and contracts |
| WalletContext.CheckContractsReady | client/src/context/stateContext.jsx:84 | the readiness flag as stored; `ReadyMeansConnected` ties it to a connected session |
| WalletContext.ReplayKeepsConsistent | client/src/context/stateContext.jsx:12-45 | any sequence of connects and disconnects from a consistent session ends consistent |
| WalletContext.ReadyMeansConnected | client/src/context/stateContext.jsx:84 | after any sequence of connects and disconnects from the initial state, `checkContractsReady()` is true only for a session with an address and contracts |
| WalletContext.WithHookContracts | client/src/context/stateContext.jsx:16-30 | a connect that would obtain contracts instead throws right after the address is set, because `getContracts` is not among the names `useContracts()` returns |
| WalletContext.HookNeverConnectsContracts | client/src/context/stateContext.jsx:16-32 | as wired, no connect changes contracts or readiness; from the initial state the profile write always fails and the read is null |
| WalletContext.Wired | client/src/context/stateContext.jsx:16-30 | the events as wired keep their length and contain no connect that obtains contracts |
| WalletContext.HookedNeverReady | client/src/context/stateContext.jsx:16-45 | from a session without contracts, no sequence of connects that fail to obtain contracts and disconnects ever gives contracts or readiness |
| WalletContext.AsWiredNeverReady | client/src/context/stateContext.jsx:16-45 | as wired, from the initial state, no sequence of connects and disconnects ever makes the context ready or gives it contracts |
| WalletContext.CallThroughContext | client/src/context/stateContext.jsx:86-97 | calling a name the provider's value object lacks throws; a name it has behaves as the call does |
| WalletContext.UpdateProfile | client/src/context/stateContext.jsx:48-61 | without the profile contract it throws before calling; otherwise it calls with name, about, image, mail, twitter, github in that order, and rethrows a failed transaction with a prefixed message |
| WalletContext.GetProfile | client/src/context/stateContext.jsx:63-81 | null exactly when the contract or address is missing or the read throws; otherwise tuple positions 0..5 become name, image, about, mail, twitter and github |
| ProfilePage.FetchProfile | client/src/pages/Profile.jsx:17-29 | without an address no call is made and nothing changes; otherwise the answer becomes the profile and loading ends |
| ProfilePage.OrDefault | client/src/pages/Profile.jsx:77-88 | a non-empty value is shown as is, and an empty or missing one shows its fallback |
| ProfilePage.SocialLink | client/src/pages/Profile.jsx:91-111 | a link exists exactly for a non-empty handle, and is the site's base URL followed by the handle |
| ProfilePage.Render | client/src/pages/Profile.jsx:35-111 | the loader shows exactly while loading; then the connect prompt exactly without an address; then "Profile not found" exactly without a profile; otherwise the card with the fixed fallbacks and links |
| ProfilePage.FailedReadShowsNotFound | client/src/pages/Profile.jsx:54-66 | for a connected user, a read that fails in any way ends on "Profile not found" |
| ProfilePage.TupleShownInReadOrder | client/src/pages/Profile.jsx:68-111 | a full six-field answer is shown in read order: name, image, about, mail, then the Twitter and GitHub links |
| Navbar.Abbreviate | client/src/components/Navbar.jsx:53 | the caption is the first six characters, "...", and the last four, with JavaScript `slice` clamping on short addresses |
| Navbar.AbbreviatedEthereumAddress | client/src/components/Navbar.jsx:53 | a 42-character address shortens to 13 characters that keep its first six and last four |
| Navbar.HandleDisconnect | client/src/components/Navbar.jsx:15-17 | only the popup opens; the session is unchanged |
| Navbar.ConfirmDisconnect | client/src/components/Navbar.jsx:19-22 | the session is disconnected and the popup closes |
| Navbar.CancelDisconnect | client/src/components/Navbar.jsx:24-26 | the popup closes and the session is kept |
| Navbar.Render | client/src/components/Navbar.jsx:47-84 | "Connect Wallet" exactly without an address; otherwise the abbreviated address, with the popup exactly while it is open |
| Navbar.PopupRoundTrips | client/src/components/Navbar.jsx:15-26 | open then confirm ends on "Connect Wallet" with no address; open then cancel returns to the closed bar with the same session |
| JobDetails.StatusText | client/src/pages/JobDetails.jsx:52 | "Paid" exactly when status is 1, otherwise "Pending" |
| JobDetails.MilestoneSection | client/src/pages/JobDetails.jsx:44-56 | an empty list shows the empty notice, a missing list throws, otherwise one status line per milestone in order |
| JobDetails.Render | client/src/pages/JobDetails.jsx:18-66 | "Loading..." exactly when no fixture job has the route id; the page throws exactly when the job found has no milestone list; otherwise that job with its milestone section, and Accept shows exactly when the bound address is not the owner string |
| JobDetails.HandleAccept | client/src/pages/JobDetails.jsx:24-32 | navigation happens exactly with a truthy address, and goes to `/myjob/` plus the same route id |
| JobDetails.OwnerGatingWithAddressString | client/src/pages/JobDetails.jsx:24-59 | with an address string, on a job that has a milestone list, Accept is hidden exactly from the owner, and accepting needs a non-empty address |
| JobDetails.AsBoundEveryoneMayAccept | client/src/pages/JobDetails.jsx:13-59 | with the whole context object bound as `address`, on a job that has a milestone list, the owner too sees Accept, and accepting always navigates |
| JobDetails.AcceptOpensSameJob | client/src/pages/JobDetails.jsx:31 | the accept path carries the page's route id, and the freelancer page finds the same job with it |
| JobCard.Filter | client/src/components/JobCard.jsx:37-39 | the result is no longer than the input and holds exactly the milestones whose `jobId` equals the job's id; `FilterSelectsInOrder` adds order and multiplicity |
| JobCard.FilterAgreesWithPanel | client/src/components/JobCard.jsx:37-39 | the card's filter selects the same milestones, in the same order, as the milestone panel's filter |
| JobCard.FilterSelectsInOrder | client/src/components/JobCard.jsx:37-39 | the card's filter lists the matching milestones at strictly increasing positions, every match included once, in input order |
| JobCard.MilestonesPerJob | client/src/components/JobCard.jsx:9-40 | job 1 shows the first two built-in milestones, job 2 the third, and any other job none |
| JobCard.FixtureAmountsAreWholeEther | client/src/components/JobCard.jsx:14-28 | the built-in amounts are 1, 2 and 3 ether in wei |
| JobCard.Render | client/src/components/JobCard.jsx:54-75 | the empty notice shows exactly when no milestone matches; otherwise one line per milestone, "Paid" exactly when status is 1 |
| JobCard.ClickTarget | client/src/components/JobCard.jsx:45 | the click path is `/jobs/` followed by the printed job id |
| JobCard.ClickOpensDetails | client/src/components/JobCard.jsx:45 | clicking a fixture job's card opens a details page that finds a job with the same id, which shows it exactly when that job has a milestone list and throws otherwise |
| Card.StatusLabel | client/src/components/Card.jsx:17-21 | exactly one of "Ongoing" (approved and unfinished), "Completed" (finished, approved or not), "New" (neither) |
| ProjectDetails.StoredProject | client/src/pages/projectDetails.jsx:36-38 | a project is found exactly when one is stored under `project-${id}`, and it is that project |
| ProjectDetails.Load | client/src/pages/projectDetails.jsx:35-43 | a stored project becomes the page's project with no navigation; without one the page is unchanged and navigates home |
| ProjectDetails.StatusLabel | client/src/pages/projectDetails.jsx:75-79 | exactly one of "new" (unapproved), "completed" (approved and finished), "ongoing" (approved and unfinished) |
| ProjectDetails.BadgesAgreeUnlessUnapprovedFinished | client/src/pages/projectDetails.jsx:75-79 | the details badge agrees with the list card's badge exactly when the project is approved or unfinished |
| ProjectDetails.IsOwner | client/src/pages/projectDetails.jsx:73 | the address is exactly the owner string, letter case included; `OwnerCheckIsCaseSensitive` contrasts it with the panel |
| ProjectDetails.OwnerCheckIsCaseSensitive | client/src/pages/projectDetails.jsx:73 | any address that differs from the owner's only in letter case is not the owner here, yet is the client for the milestone panel |
| ProjectDetails.Control | client/src/pages/projectDetails.jsx:169-183 | "Project already started" exactly when accepted; otherwise "Owner can't post proposals" exactly for the owner, and the submit button for anyone else, busy while submitting |
| ProjectDetails.AcceptShown | client/src/pages/projectDetails.jsx:100 | the accept panel shows to the owner of an approved project; `PostAndAcceptExclusive` relates it to the proposal form |
| ProjectDetails.PostAndAcceptExclusive | client/src/pages/projectDetails.jsx:100-183 | whoever may post a proposal does not see the accept panel, and the reverse |
| ProjectDetails.HandleSubmit | client/src/pages/projectDetails.jsx:51-69 | an empty description or amount does nothing; otherwise `{id: pId, description, amount}` is sent, the page goes home exactly on success, and the button is released |
| ProjectDetails.ContextSubmissionNeverCompletes | client/src/pages/projectDetails.jsx:51-69 | with this context a proposal submission never navigates, and the button is released |
| ProjectDetails.FetchProposals | client/src/pages/projectDetails.jsx:22-33 | the fetched list replaces the proposals; a null answer, a throw or a missing project gives the empty list; loading ends and nothing else changes |
| ProjectDetails.ContextNeverFetchesProposals | client/src/pages/projectDetails.jsx:45-49 | with this context the fetch never runs, and the list as it starts shows "No proposals yet. Be the first!" |
| ProjectDetails.CardProps | client/src/pages/projectDetails.jsx:126-136 | each card gets no `proposer`, no `projectId` and no callback, with the project's approval and the proposal's rejection |
| ProjectDetails.Proposals | client/src/pages/projectDetails.jsx:124-139 | "No proposals yet. Be the first!" exactly with no proposals; otherwise one card per proposal, in order |
| ProjectDetails.EveryProposalCardThrows | client/src/pages/projectDetails.jsx:126-136 | every proposal card the page renders throws |
| ProjectDetails.FetchedProposalsShown | client/src/pages/projectDetails.jsx:22-139 | after a fetch that fails, answers null or empty, or has no project, the list shows "No proposals yet"; after one that returns proposals, one card per proposal in order, built from its props |
| ProposalCard.RenderStatus | client/src/components/ProposalCard.jsx:19-23 | exactly one of "Approved" (approved), "Rejected" (rejected and not approved), "Pending" (neither) |
| ProposalCard.Render | client/src/components/ProposalCard.jsx:8-44 | rendering throws exactly when the proposer or address is missing, or `projectId` is missing on a pending proposal; otherwise the badge shows, with the buttons exactly on a pending proposal whose project owner is the address |
| ProposalCard.ActionsOnlyWhilePending | client/src/components/ProposalCard.jsx:44 | the buttons appear only on a pending proposal viewed by its project's owner |
| ProposalCard.HandleAction | client/src/components/ProposalCard.jsx:10-17 | without a contract nothing happens; "approve" calls approve and any other type calls reject, with `(projectId, index)`; success ends loading and runs the callback if given; a throw leaves loading on |
| ProposalCard.ContextDisablesActions | client/src/components/ProposalCard.jsx:7-11 | with this context every action is a no-op |
| DisplayProjects.HandleNavigate | client/src/components/DisplayProjects.jsx:8-12 | the project is stored under `project-${pId}`, every other key is unchanged, and the path is `/projectdetails/` followed by the printed pId |
| DisplayProjects.ClickHandsProjectToDetails | client/src/components/DisplayProjects.jsx:10-11 | the details page, given the id from the click's path and the click's store, loads exactly the clicked project and stays |
| DisplayProjects.ClickKeepsOtherProjects | client/src/components/DisplayProjects.jsx:10 | a click changes neither what the details page loads for any other project nor the milestone list |
| DisplayProjects.Header | client/src/components/DisplayProjects.jsx:17 | the heading starts with the title and ends with ")" |
| DisplayProjects.HeaderShowsCount | client/src/components/DisplayProjects.jsx:17 | two headings for the same title are equal exactly when the counts are |
| DisplayProjects.Render | client/src/components/DisplayProjects.jsx:20-32 | "Loading..." exactly while loading; then "No projects yet!" exactly for an empty list; otherwise one card per project in list order, keyed by pId, with the card's badge |
| DisplayProjects.ClickedCardIsListed | client/src/components/DisplayProjects.jsx:8-32 | clicking the card at position i of the rendered list stores exactly the i-th project under that card's key and the details page loads it; its badge there matches the card's unless it is finished but unapproved |

## Left out

- Wallet and contract I/O is left out: providers, signers, `tx.wait`, contract reads and writes, and client/src/hooks/useContracts.js. Each call is an outcome parameter; only the names the hook returns are kept.
- JSON encoding in the browser store is taken to be exact. A value of the wrong shape under a project key is treated as no project; no page writes one.
- The cross-tab `storage` listener (client/src/pages/JobOwner.jsx:42-50) is left out; an event is an explicit call of the owner's reload.
- `parseFloat`/`isNaN` are left out: a numeric input carries its text and the number it parses to, or none.
- `parseUnits` is modelled as exact scaling by 10^18, failing when the result is not whole. Its string grammar, and `formatUnits`/`formatEther` display, are left out.
- `Date.now()` ids are left out; they are a fresh-id argument.
- `Common.ToLower`: lower-cases ASCII letters only, because the addresses compared are hexadecimal.
- `Common.IntToString`: prints integers in plain decimal only, without the exponent form JavaScript uses for very large numbers; every id printed is an integer.
- The job fixture (`staticJobs.json`) is not part of this model. Jobs are a parameter.
- `daysLeft` is not part of this model, so the card's day count is not modelled.
- JSX markup, styling, alerts, console logging and the loading spinner are left out. Only which label, control or screen is selected is modelled.
- client/src/pages/createJob.jsx:1-148 is commented out and not modelled.
- Routing and thin wrappers are left out: App.jsx, Home.jsx, Projects.jsx, Jobs.jsx, DisplayJobs.jsx, AcceptProject.jsx and AcceptJob.jsx. Deployment scripts are left out too.
- `ProposalCard.HandleAction`: an action that throws is an unhandled rejection in the source. The model records only that `loading` stays true and the callback does not run.
- `ProfilePage.FetchProfile`: the context's `getProfile` never throws, so the page's own `catch` branch is not modelled separately.

/** The milestone request/approve workflow of the freelancer page (`MyJob`) and the
    owner page (`JobOwner`). Both pages start from the same job fixture and exchange
    the whole milestone list under one key of the browser store: the freelancer
    sets `requested`, the owner clears it and decides `status`. */
module MilestoneSync {
  import opened Common
  import opened Records

  /** What either page holds: the job found for the route id (or none yet) and the
      milestones it renders. */
  datatype JobView = JobView(job: Option<Job>, milestones: seq<Milestone>)

  /** Both pages start with `job = null` and `milestones = []`. */
  const InitialView: JobView := JobView(None, [])

  /** A page's state together with the store it writes to. */
  datatype Synced = Synced(view: JobView, store: Store)

  /** Every milestone id in `ms` occurs once. */
  predicate UniqueIds(ms: seq<Milestone>) {
    forall i, j :: 0 <= i < j < |ms| ==> ms[i].id != ms[j].id
  }

  /** `b` carries, index by index, the same milestones as `a` up to their
      `requested` and `status`. */
  predicate SameShape(a: seq<Milestone>, b: seq<Milestone>) {
    && |a| == |b|
    && forall i :: 0 <= i < |a| ==> a[i].id == b[i].id && a[i].description == b[i].description
                                    && a[i].amount == b[i].amount
  }

  // ---------------------------------------------------------------------------
  // Loading

  /** `(job.milestones || []).map((m) => ({ ...m, requested: false, status: m.status || 0 }))` */
  function NormaliseAll(fixture: Option<seq<FixtureMilestone>>): (r: seq<Milestone>)
    ensures |r| == |fixture.GetOr([])|
    ensures forall i :: 0 <= i < |r| ==>
              var m := fixture.GetOr([])[i];
              && r[i].id == m.id && r[i].description == m.description && r[i].amount == m.amount
              && !r[i].requested
              && (m.status.Some? && m.status.value != 0 ==> r[i].status == m.status.value)
              && (m.status.None? || m.status.value == 0 ==> r[i].status == 0)
  {
    var fs := fixture.GetOr([]);
    seq(|fs|, i requires 0 <= i < |fs| => Milestone(fs[i].id, fs[i].description, fs[i].amount, fs[i].status.GetOr(0), false))
  }

  /** The index of the first stored entry with id `id`: `stored.find((s) => s.id === id)`. */
  function FirstWithId(stored: seq<Milestone>, id: int): (r: Option<nat>)
    ensures r.Some? ==> r.value < |stored| && stored[r.value].id == id
                        && forall i :: 0 <= i < r.value ==> stored[i].id != id
    ensures r.None? ==> forall i :: 0 <= i < |stored| ==> stored[i].id != id
  {
    if |stored| == 0 then None
    else if stored[0].id == id then Some(0)
    else match FirstWithId(stored[1..], id)
      case None => None
      case Some(k) => Some(k + 1)
  }

  /** The owner page's merge: each milestone takes `requested` and `status` from the
      first stored entry with its id and is otherwise kept; stored entries whose ids
      are not in `ms` play no part. */
  function Merge(ms: seq<Milestone>, stored: seq<Milestone>): (r: seq<Milestone>)
    ensures SameShape(ms, r)
    ensures forall i :: 0 <= i < |ms| ==>
              match FirstWithId(stored, ms[i].id)
              case Some(k) => r[i].requested == stored[k].requested && r[i].status == stored[k].status
              case None => r[i] == ms[i]
  {
    seq(|ms|, i requires 0 <= i < |ms| =>
      match FirstWithId(stored, ms[i].id)
      case Some(k) => ms[i].(requested := stored[k].requested, status := stored[k].status)
      case None => ms[i])
  }

  /** `MyJob`'s effect: look the job up by the printed id and normalise its
      milestones. The store is not read; an unknown id changes nothing. */
  function FreelancerLoad(view: JobView, jobs: seq<Job>, id: string): (r: JobView)
    ensures FindJob(jobs, id).None? ==> r == view
    ensures FindJob(jobs, id).Some? ==>
              r.job == FindJob(jobs, id) && r.milestones == NormaliseAll(FindJob(jobs, id).value.milestones)
  {
    match FindJob(jobs, id)
    case None => view
    case Some(j) => JobView(Some(j), NormaliseAll(j.milestones))
  }

  /** `JobOwner`'s `loadJobAndMilestones`: as the freelancer load, then merged with
      the list under the milestone key when there is one. A stored value that is
      not a list makes `stored.find` throw before anything is set, unless there is
      no milestone to look up. */
  function OwnerLoad(view: JobView, jobs: seq<Job>, id: string, store: Store): (r: JobView)
    ensures FindJob(jobs, id).None? ==> r == view
    ensures FindJob(jobs, id).Some? && MilestoneStatusKey !in store ==>
              r == FreelancerLoad(view, jobs, id)
    ensures FindJob(jobs, id).Some? && MilestoneStatusKey in store && store[MilestoneStatusKey].MilestoneList? ==>
              r.job == FindJob(jobs, id)
              && r.milestones == Merge(NormaliseAll(FindJob(jobs, id).value.milestones), store[MilestoneStatusKey].items)
  {
    match FindJob(jobs, id)
    case None => view
    case Some(j) =>
      var base := NormaliseAll(j.milestones);
      if MilestoneStatusKey !in store then JobView(Some(j), base)
      else match store[MilestoneStatusKey]
        case MilestoneList(items) => JobView(Some(j), Merge(base, items))
        case ProjectRecord(_) => if |base| == 0 then JobView(Some(j), base) else view
  }

  // ---------------------------------------------------------------------------
  // The two transitions

  /** `handleRequestCompletion(id)`'s list update: `requested` set on every
      milestone with that id. */
  function RequestCompletion(ms: seq<Milestone>, id: int): (r: seq<Milestone>)
    ensures |r| == |ms|
    ensures forall i :: 0 <= i < |ms| ==> r[i] == if ms[i].id == id then ms[i].(requested := true) else ms[i]
  {
    seq(|ms|, i requires 0 <= i < |ms| => if ms[i].id == id then ms[i].(requested := true) else ms[i])
  }

  /** `handleDecision(id, accepted)`'s list update: every milestone with that id
      loses its request and gets status 1 (accepted) or 0 (rejected). */
  function Decide(ms: seq<Milestone>, id: int, accepted: bool): (r: seq<Milestone>)
    ensures |r| == |ms|
    ensures forall i :: 0 <= i < |ms| ==>
              r[i] == if ms[i].id == id then ms[i].(requested := false, status := if accepted then 1 else 0) else ms[i]
  {
    seq(|ms|, i requires 0 <= i < |ms| =>
      if ms[i].id == id then ms[i].(requested := false, status := if accepted then 1 else 0) else ms[i])
  }

  /** `localStorage.setItem('milestoneStatus', JSON.stringify(list))`. */
  function Persist(store: Store, ms: seq<Milestone>): (r: Store)
    ensures MilestoneStatusKey in r && r[MilestoneStatusKey] == MilestoneList(ms)
    ensures forall k :: k in store && k != MilestoneStatusKey ==> k in r && r[k] == store[k]
    ensures r.Keys == store.Keys + {MilestoneStatusKey}
  {
    store[MilestoneStatusKey := MilestoneList(ms)]
  }

  /** The freelancer's click: the view shows the updated list and the store holds
      exactly that list. */
  function FreelancerRequest(s: Synced, id: int): (r: Synced)
    ensures r.view.job == s.view.job
    ensures r.view.milestones == RequestCompletion(s.view.milestones, id)
    ensures r.store == Persist(s.store, r.view.milestones)
  {
    var updated := RequestCompletion(s.view.milestones, id);
    Synced(s.view.(milestones := updated), Persist(s.store, updated))
  }

  /** The owner's Approve or Reject click: the view shows the decided list and the
      store holds exactly that list. */
  function OwnerDecide(s: Synced, id: int, accepted: bool): (r: Synced)
    ensures r.view.job == s.view.job
    ensures r.view.milestones == Decide(s.view.milestones, id, accepted)
    ensures r.store == Persist(s.store, r.view.milestones)
  {
    var updated := Decide(s.view.milestones, id, accepted);
    Synced(s.view.(milestones := updated), Persist(s.store, updated))
  }

  // ---------------------------------------------------------------------------
  // What the pages render

  /** One owner row: its status text and whether Approve/Reject are offered. */
  datatype OwnerRow = OwnerRow(text: string, offersDecision: bool)

  /** One freelancer row: its status text, whether "Request Completion" is offered
      and whether "Completion Requested" is shown. */
  datatype FreelancerRow = FreelancerRow(text: string, offersRequest: bool, showsRequested: bool)

  datatype Screen<R> = JobNotFound | NoMilestones | Rows(rows: seq<R>)

  function OwnerRowOf(m: Milestone): (r: OwnerRow)
    ensures r.text in {"Approved", "Pending"}
    ensures r.text == "Approved" <==> m.status == 1
    ensures r.offersDecision <==> m.status == 0 && m.requested
  {
    OwnerRow(if m.status == 1 then "Approved" else "Pending", m.status == 0 && m.requested)
  }

  function FreelancerRowOf(m: Milestone): (r: FreelancerRow)
    ensures r.text in {"Paid", "Pending"}
    ensures r.text == "Paid" <==> m.status == 1
    ensures r.offersRequest <==> m.status == 0 && !m.requested
    ensures r.showsRequested <==> m.status == 0 && m.requested
    ensures !(r.offersRequest && r.showsRequested)
    ensures m.status == 1 ==> !r.offersRequest && !r.showsRequested
  {
    FreelancerRow(if m.status == 1 then "Paid" else "Pending", m.status == 0 && !m.requested, m.status == 0 && m.requested)
  }

  /** `if (!job)` shows "Job not found"; an empty list shows "No milestones defined.";
      otherwise one row per milestone in order. */
  function OwnerScreen(v: JobView): (r: Screen<OwnerRow>)
    ensures r.JobNotFound? <==> v.job.None?
    ensures r.NoMilestones? <==> v.job.Some? && |v.milestones| == 0
    ensures r.Rows? ==> (|r.rows| == |v.milestones|
                         && forall i :: 0 <= i < |v.milestones| ==> r.rows[i] == OwnerRowOf(v.milestones[i]))
  {
    if v.job.None? then JobNotFound
    else if |v.milestones| == 0 then NoMilestones
    else Rows(seq(|v.milestones|, i requires 0 <= i < |v.milestones| => OwnerRowOf(v.milestones[i])))
  }

  function FreelancerScreen(v: JobView): (r: Screen<FreelancerRow>)
    ensures r.JobNotFound? <==> v.job.None?
    ensures r.NoMilestones? <==> v.job.Some? && |v.milestones| == 0
    ensures r.Rows? ==> (|r.rows| == |v.milestones|
                         && forall i :: 0 <= i < |v.milestones| ==> r.rows[i] == FreelancerRowOf(v.milestones[i]))
  {
    if v.job.None? then JobNotFound
    else if |v.milestones| == 0 then NoMilestones
    else Rows(seq(|v.milestones|, i requires 0 <= i < |v.milestones| => FreelancerRowOf(v.milestones[i])))
  }

  // ---------------------------------------------------------------------------
  // Properties of the workflow

  /** A route id that prints no fixture job leaves either fresh page on "Job not found". */
  lemma UnknownIdShowsNotFound(jobs: seq<Job>, id: string, store: Store)
    requires forall j :: j in jobs ==> IntToString(j.id) != id
    ensures OwnerScreen(OwnerLoad(InitialView, jobs, id, store)) == JobNotFound
    ensures FreelancerScreen(FreelancerLoad(InitialView, jobs, id)) == JobNotFound
  {
  }

  /** Requesting twice is requesting once. */
  lemma RequestIdempotent(ms: seq<Milestone>, id: int)
    ensures RequestCompletion(RequestCompletion(ms, id), id) == RequestCompletion(ms, id)
  {
  }

  /** Requesting keeps every milestone's shape and status. */
  lemma RequestKeepsShapeAndStatus(ms: seq<Milestone>, id: int)
    ensures SameShape(ms, RequestCompletion(ms, id))
    ensures forall i :: 0 <= i < |ms| ==> RequestCompletion(ms, id)[i].status == ms[i].status
  {
  }

  /** After a request the freelancer is no longer offered the button for that id,
      and sees "Completion Requested" exactly where the milestone is still pending. */
  lemma RequestHidesButton(ms: seq<Milestone>, id: int, i: int)
    requires 0 <= i < |ms| && ms[i].id == id
    ensures !FreelancerRowOf(RequestCompletion(ms, id)[i]).offersRequest
    ensures FreelancerRowOf(RequestCompletion(ms, id)[i]).showsRequested <==> ms[i].status == 0
  {
  }

  /** Deciding twice the same way is deciding once. */
  lemma DecideIdempotent(ms: seq<Milestone>, id: int, accepted: bool)
    ensures Decide(Decide(ms, id, accepted), id, accepted) == Decide(ms, id, accepted)
  {
  }

  /** After a decision the owner is offered no further decision on that id, and
      the status text says "Approved" exactly when it was accepted. */
  lemma DecisionClosesRequest(ms: seq<Milestone>, id: int, accepted: bool, i: int)
    requires 0 <= i < |ms| && ms[i].id == id
    ensures !OwnerRowOf(Decide(ms, id, accepted)[i]).offersDecision
    ensures OwnerRowOf(Decide(ms, id, accepted)[i]).text == "Approved" <==> accepted
  {
  }

  /** Merging a list of the same shape with unique ids over itself gives that list:
      every milestone finds its own entry first. */
  lemma {:induction false} MergeOwnList(ms: seq<Milestone>, stored: seq<Milestone>)
    requires SameShape(ms, stored) && UniqueIds(ms)
    ensures Merge(ms, stored) == stored
  {
    var r := Merge(ms, stored);
    forall i | 0 <= i < |ms|
      ensures r[i] == stored[i]
    {
      var k := FirstWithId(stored, ms[i].id);
      assert stored[i].id == ms[i].id;
      assert k.Some?;
      assert ms[k.value].id == stored[k.value].id == ms[i].id;
      assert k.value == i;
    }
  }

  /** What the owner persists is what a reload shows: reloading the same job after a
      decision reproduces every milestone's `requested` and `status`. */
  lemma DecisionSurvivesReload(jobs: seq<Job>, id: string, store: Store, mid: int, accepted: bool)
    requires FindJob(jobs, id).Some?
    requires UniqueIds(NormaliseAll(FindJob(jobs, id).value.milestones))
    requires OwnerLoad(InitialView, jobs, id, store).job.Some?
    ensures var loaded := OwnerLoad(InitialView, jobs, id, store);
            var after := OwnerDecide(Synced(loaded, store), mid, accepted);
            OwnerLoad(after.view, jobs, id, after.store) == after.view
  {
    var loaded := OwnerLoad(InitialView, jobs, id, store);
    var after := OwnerDecide(Synced(loaded, store), mid, accepted);
    var base := NormaliseAll(FindJob(jobs, id).value.milestones);
    assert SameShape(base, loaded.milestones);
    assert SameShape(base, after.view.milestones);
    MergeOwnList(base, after.view.milestones);
  }

  /** A request made on the freelancer page reaches the owner page: loading the same
      job there shows the requested list, and Approve/Reject is offered exactly on
      the requested id where the milestone is still pending. */
  lemma RequestReachesOwner(jobs: seq<Job>, id: string, store: Store, mid: int)
    requires FindJob(jobs, id).Some?
    requires UniqueIds(NormaliseAll(FindJob(jobs, id).value.milestones))
    ensures var sent := FreelancerRequest(Synced(FreelancerLoad(InitialView, jobs, id), store), mid);
            var seen := OwnerLoad(InitialView, jobs, id, sent.store);
            && seen == sent.view
            && forall i :: 0 <= i < |seen.milestones| ==>
                 (OwnerRowOf(seen.milestones[i]).offersDecision <==> seen.milestones[i].id == mid && seen.milestones[i].status == 0)
  {
    var base := NormaliseAll(FindJob(jobs, id).value.milestones);
    var sent := FreelancerRequest(Synced(FreelancerLoad(InitialView, jobs, id), store), mid);
    assert SameShape(base, sent.view.milestones);
    MergeOwnList(base, sent.view.milestones);
  }

  /** The freelancer page never reads the store: after the owner approves a pending
      milestone, the owner page keeps showing "Approved" on reload while a reload of
      the freelancer page shows it pending and offers "Request Completion" again. */
  lemma FreelancerReloadForgetsApproval(jobs: seq<Job>, id: string, store: Store, i: int)
    requires FindJob(jobs, id).Some?
    requires UniqueIds(NormaliseAll(FindJob(jobs, id).value.milestones))
    requires OwnerLoad(InitialView, jobs, id, store).job.Some?
    requires 0 <= i < |NormaliseAll(FindJob(jobs, id).value.milestones)|
    requires NormaliseAll(FindJob(jobs, id).value.milestones)[i].status == 0
    ensures var mid := NormaliseAll(FindJob(jobs, id).value.milestones)[i].id;
            var owner := OwnerDecide(Synced(OwnerLoad(InitialView, jobs, id, store), store), mid, true);
            && OwnerRowOf(OwnerLoad(InitialView, jobs, id, owner.store).milestones[i]).text == "Approved"
            && FreelancerRowOf(FreelancerLoad(InitialView, jobs, id).milestones[i]).offersRequest
  {
    var base := NormaliseAll(FindJob(jobs, id).value.milestones);
    var loaded := OwnerLoad(InitialView, jobs, id, store);
    var owner := OwnerDecide(Synced(loaded, store), base[i].id, true);
    assert SameShape(base, owner.view.milestones);
    MergeOwnList(base, owner.view.milestones);
    assert OwnerLoad(InitialView, jobs, id, owner.store).milestones == owner.view.milestones;
  }

  /** The freelancer page writes its own list, which still carries the fixture
      statuses: a request made there after the owner approved a milestone
      overwrites the stored approval, and the owner's next reload shows that
      milestone pending again. */
  lemma RequestOverwritesApproval(jobs: seq<Job>, id: string, store: Store, i: int, rid: int)
    requires FindJob(jobs, id).Some?
    requires UniqueIds(NormaliseAll(FindJob(jobs, id).value.milestones))
    requires OwnerLoad(InitialView, jobs, id, store).job.Some?
    requires 0 <= i < |NormaliseAll(FindJob(jobs, id).value.milestones)|
    requires NormaliseAll(FindJob(jobs, id).value.milestones)[i].status == 0
    ensures var mid := NormaliseAll(FindJob(jobs, id).value.milestones)[i].id;
            var owner := OwnerDecide(Synced(OwnerLoad(InitialView, jobs, id, store), store), mid, true);
            var sent := FreelancerRequest(Synced(FreelancerLoad(InitialView, jobs, id), owner.store), rid);
            && OwnerRowOf(owner.view.milestones[i]).text == "Approved"
            && OwnerRowOf(OwnerLoad(InitialView, jobs, id, sent.store).milestones[i]).text == "Pending"
  {
    var base := NormaliseAll(FindJob(jobs, id).value.milestones);
    var loaded := OwnerLoad(InitialView, jobs, id, store);
    assert SameShape(base, loaded.milestones);
    var owner := OwnerDecide(Synced(loaded, store), base[i].id, true);
    var sent := FreelancerRequest(Synced(FreelancerLoad(InitialView, jobs, id), owner.store), rid);
    assert SameShape(base, sent.view.milestones);
    MergeOwnList(base, sent.view.milestones);
    assert OwnerLoad(InitialView, jobs, id, sent.store).milestones == sent.view.milestones;
  }
}

/** The static "Create Job" page: a job title and funding create a local job,
    then milestones are added to it one at a time. Everything lives in the page's
    state; nothing reaches the chain. */
module CreateJob {
  import opened Common
  import opened Units

  /** A numeric form field: the text typed and what JavaScript's numeric parsing
      makes of it (None for NaN). */
  datatype NumericInput = NumericInput(text: string, number: Option<real>)

  /** An empty field: `Number("")` is 0. */
  const EmptyNumericInput: NumericInput := NumericInput("", Some(0.0))

  datatype LocalMilestone = LocalMilestone(id: int, description: string, amount: int, status: int)

  datatype LocalJob = LocalJob(id: int, title: string, budget: string, description: string, owner: string,
                               milestones: seq<LocalMilestone>)

  /** The page state: the jobs created so far, the four inputs, and the job that
      milestones are currently being added to. */
  datatype Form = Form(jobs: seq<LocalJob>, title: string, reward: NumericInput,
                       milestoneDescription: string, milestoneAmount: NumericInput,
                       jobCreated: Option<LocalJob>)

  const InitialForm: Form := Form([], "", EmptyNumericInput, "", EmptyNumericInput, None)

  const LocalJobDescription: string := "Job created locally."
  const FakeOwner: string := "0xFakeOwnerAddress"

  /** `!x || isNaN(x) || parseFloat(x) <= 0` is false: non-empty and a positive number. */
  predicate IsPositiveAmount(f: NumericInput) {
    f.text != "" && f.number.Some? && f.number.value > 0.0
  }

  /** The title and funding checks of `handleCreateJob`. */
  predicate CreateJobAccepted(s: Form) {
    s.title != "" && IsPositiveAmount(s.reward)
  }

  /** The description and amount checks of `handleCreateMilestone`. */
  predicate MilestoneInputAccepted(s: Form) {
    s.milestoneDescription != "" && IsPositiveAmount(s.milestoneAmount)
  }

  /** `handleCreateJob`: a rejected title or funding changes nothing; otherwise one
      job with no milestones is appended and becomes the job being edited. */
  function HandleCreateJob(s: Form, freshId: int): (r: Form)
    ensures !CreateJobAccepted(s) ==> r == s
    ensures CreateJobAccepted(s) ==>
              && r.jobCreated.Some?
              && r.jobs == s.jobs + [r.jobCreated.value]
              && r.jobCreated.value == LocalJob(freshId, s.title, s.reward.text, LocalJobDescription, FakeOwner, [])
              && r.(jobs := s.jobs, jobCreated := s.jobCreated) == s
  {
    if !CreateJobAccepted(s) then s
    else
      var newJob := LocalJob(freshId, s.title, s.reward.text, LocalJobDescription, FakeOwner, []);
      s.(jobs := s.jobs + [newJob], jobCreated := Some(newJob))
  }

  /** `prev.map((job) => (job.id === updated.id ? updated : job))`. */
  function ReplaceById(jobs: seq<LocalJob>, updated: LocalJob): (r: seq<LocalJob>)
    ensures |r| == |jobs|
    ensures forall i :: 0 <= i < |jobs| && jobs[i].id == updated.id ==> r[i] == updated
    ensures forall i :: 0 <= i < |jobs| && jobs[i].id != updated.id ==> r[i] == jobs[i]
  {
    seq(|jobs|, i requires 0 <= i < |jobs| => if jobs[i].id == updated.id then updated else jobs[i])
  }

  /** Everything `handleCreateMilestone` needs to reach its end: valid inputs, an
      amount with at most 18 decimals, and a job being edited. */
  predicate AddsMilestone(s: Form) {
    MilestoneInputAccepted(s) && EthToWei(s.milestoneAmount.number.value).Some? && s.jobCreated.Some?
  }

  /** `handleCreateMilestone`: rejected inputs change nothing (and so does a throw from
      the unit conversion or from a missing job); otherwise the job being edited
      gains one pending milestone worth the amount in wei, every job with its id is
      replaced by it, and the two milestone inputs are cleared. */
  function HandleCreateMilestone(s: Form, freshId: int): (r: Form)
    ensures !AddsMilestone(s) ==> r == s
    ensures AddsMilestone(s) ==>
              var prev := s.jobCreated.value;
              && r.jobCreated.Some?
              && r.jobCreated.value.(milestones := prev.milestones) == prev
              && |r.jobCreated.value.milestones| == |prev.milestones| + 1
              && r.jobCreated.value.milestones[..|prev.milestones|] == prev.milestones
              && (var m := r.jobCreated.value.milestones[|prev.milestones|];
                  && m.id == freshId && m.description == s.milestoneDescription && m.status == 0
                  && m.amount as real == s.milestoneAmount.number.value * WeiPerEther as real
                  && m.amount > 0)
              && r.jobs == ReplaceById(s.jobs, r.jobCreated.value)
              && r.milestoneDescription == "" && r.milestoneAmount == EmptyNumericInput
              && r.title == s.title && r.reward == s.reward
  {
    if !MilestoneInputAccepted(s) then s
    else match EthToWei(s.milestoneAmount.number.value)
      case None => s
      case Some(wei) =>
        if s.jobCreated.None? then s
        else
          var job := s.jobCreated.value;
          var newMilestone := LocalMilestone(freshId, s.milestoneDescription, wei, 0);
          var updated := job.(milestones := job.milestones + [newMilestone]);
          s.(jobCreated := Some(updated), jobs := ReplaceById(s.jobs, updated),
             milestoneDescription := "", milestoneAmount := EmptyNumericInput)
  }

  /** `handleResetForm`: the four inputs and the job being edited are cleared; the
      created jobs stay. */
  function HandleResetForm(s: Form): (r: Form)
    ensures r.jobs == s.jobs
    ensures r.(jobs := []) == InitialForm
  {
    s.(title := "", reward := EmptyNumericInput, milestoneDescription := "",
       milestoneAmount := EmptyNumericInput, jobCreated := None)
  }

  /** "Create Job" is shown only while no job is being edited; the milestone form
      only while one is. */
  function Controls(s: Form): (r: (bool, bool))
    ensures r.0 <==> s.jobCreated.None?
    ensures r.1 <==> s.jobCreated.Some?
    ensures r.0 != r.1
  {
    (s.jobCreated.None?, s.jobCreated.Some?)
  }

  /** A successful create swaps the "Create Job" button for the milestone form, a
      rejected one leaves the controls alone, and a reset brings the button back. */
  lemma CreateAndResetSwapControls(s: Form, freshId: int)
    ensures CreateJobAccepted(s) ==> Controls(HandleCreateJob(s, freshId)) == (false, true)
    ensures !CreateJobAccepted(s) ==> Controls(HandleCreateJob(s, freshId)) == Controls(s)
    ensures Controls(HandleCreateMilestone(s, freshId)) == Controls(s)
    ensures Controls(HandleResetForm(s)) == (true, false)
  {
  }

  // ---------------------------------------------------------------------------
  // Invariant kept by the three handlers

  /** The job being edited is one of the created jobs, and every milestone ever
      added is pending and worth a positive amount. */
  predicate Coherent(s: Form) {
    && (s.jobCreated.Some? ==> s.jobCreated.value in s.jobs)
    && (forall j :: j in s.jobs ==> forall m :: m in j.milestones ==> m.status == 0 && m.amount > 0)
    && (s.jobCreated.Some? ==> forall m :: m in s.jobCreated.value.milestones ==> m.status == 0 && m.amount > 0)
  }

  lemma InitialCoherent()
    ensures Coherent(InitialForm)
  {
  }

  lemma CreateJobKeepsCoherent(s: Form, freshId: int)
    requires Coherent(s)
    ensures Coherent(HandleCreateJob(s, freshId))
  {
  }

  lemma CreateMilestoneKeepsCoherent(s: Form, freshId: int)
    requires Coherent(s)
    ensures Coherent(HandleCreateMilestone(s, freshId))
  {
    if AddsMilestone(s) {
      var r := HandleCreateMilestone(s, freshId);
      var prev := s.jobCreated.value;
      var updated := r.jobCreated.value;
      assert updated.milestones == prev.milestones + [updated.milestones[|prev.milestones|]];
      var k :| 0 <= k < |s.jobs| && s.jobs[k] == prev;
      assert r.jobs[k] == updated;
      forall j | j in r.jobs
        ensures forall m :: m in j.milestones ==> m.status == 0 && m.amount > 0
      {
        var i :| 0 <= i < |r.jobs| && r.jobs[i] == j;
        if s.jobs[i].id != updated.id {
          assert j == s.jobs[i];
        }
      }
    }
  }

  lemma ResetKeepsCoherent(s: Form)
    requires Coherent(s)
    ensures Coherent(HandleResetForm(s))
  {
  }
}

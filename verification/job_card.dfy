/** The job card of the jobs list: its built-in milestone table, the filter by job
    id, the status lines and the click target. */
module JobCard {
  import opened Common
  import opened Units
  import opened Records
  import JobMilestones
  import JobDetails

  /** The card's three built-in milestones; amounts are `parseUnits('1' | '2' | '3', 'ether')`. */
  const StaticMilestones: seq<JobMilestones.ChainMilestone> := [
    JobMilestones.ChainMilestone(1, 1, "Initial UI Design", 1 * WeiPerEther, 0),
    JobMilestones.ChainMilestone(2, 1, "Backend API Integration", 2 * WeiPerEther, 1),
    JobMilestones.ChainMilestone(3, 2, "Smart Contract Logic", 3 * WeiPerEther, 0)
  ]

  /** `ms.filter((m) => m.jobId === jobId)`. */
  function Filter(ms: seq<JobMilestones.ChainMilestone>, jobId: int): (r: seq<JobMilestones.ChainMilestone>)
    ensures |r| <= |ms|
    ensures forall m :: m in r <==> m in ms && m.jobId == jobId
  {
    if |ms| == 0 then []
    else (if ms[0].jobId == jobId then [ms[0]] else []) + Filter(ms[1..], jobId)
  }

  /** Filtering a list extended by one element extends the result by that element
      when it matches. */
  lemma {:induction false} FilterSnoc(a: seq<JobMilestones.ChainMilestone>, x: JobMilestones.ChainMilestone, jobId: int)
    ensures Filter(a + [x], jobId) == Filter(a, jobId) + (if x.jobId == jobId then [x] else [])
  {
    if |a| == 0 {
      assert a + [x] == [x];
      assert [x][1..] == [];
    } else {
      assert (a + [x])[0] == a[0];
      assert (a + [x])[1..] == a[1..] + [x];
      FilterSnoc(a[1..], x, jobId);
    }
  }

  /** The card's strict-equality filter selects the same milestones, in the same
      order, as the milestone panel's filter on printed ids. */
  lemma {:induction false} FilterAgreesWithPanel(ms: seq<JobMilestones.ChainMilestone>, jobId: int)
    ensures Filter(ms, jobId) == JobMilestones.ForJob(ms, jobId)
    decreases |ms|
  {
    if |ms| > 0 {
      var init := ms[..|ms| - 1];
      var last := ms[|ms| - 1];
      assert ms == init + [last];
      FilterAgreesWithPanel(init, jobId);
      FilterSnoc(init, last, jobId);
      JobMilestones.BelongsToIffSameJob(last, jobId);
    }
  }

  /** The card's filter keeps order and multiplicity: its result lists the
      matching milestones at strictly increasing positions, every match included. */
  lemma FilterSelectsInOrder(ms: seq<JobMilestones.ChainMilestone>, jobId: int)
    ensures exists idx :: JobMilestones.SelectsInOrder(ms, jobId, Filter(ms, jobId), idx)
  {
    FilterAgreesWithPanel(ms, jobId);
    JobMilestones.ForJobSelectsInOrder(ms, jobId);
  }

  /** The milestones the card for job `jobId` shows. */
  function MilestonesFor(jobId: int): (r: seq<JobMilestones.ChainMilestone>)
    ensures forall m :: m in r <==> m in StaticMilestones && m.jobId == jobId
  {
    Filter(StaticMilestones, jobId)
  }

  /** Job 1 shows the first two built-in milestones, job 2 the third, any other job none. */
  lemma MilestonesPerJob(jobId: int)
    ensures MilestonesFor(1) == StaticMilestones[..2]
    ensures MilestonesFor(2) == [StaticMilestones[2]]
    ensures jobId != 1 && jobId != 2 ==> MilestonesFor(jobId) == []
  {
    var s := StaticMilestones;
    forall j: int
      ensures Filter(s, j) == (if j == 1 then s[..2] else if j == 2 then [s[2]] else [])
    {
      assert s[1..][1..][1..] == [];
      assert Filter(s[1..][1..], j) == (if j == 2 then [s[2]] else []);
      assert Filter(s[1..], j) == (if j == 1 then [s[1]] else []) + Filter(s[1..][1..], j);
      assert s[..2] == [s[0], s[1]];
    }
  }

  /** The built-in amounts are 1, 2 and 3 ether converted to wei. */
  lemma FixtureAmountsAreWholeEther()
    ensures forall i :: 0 <= i < |StaticMilestones| ==> EthToWei((i + 1) as real) == Some(StaticMilestones[i].amount)
  {
    assert EthToWei(1.0) == Some(WeiPerEther);
    assert EthToWei(2.0) == Some(2 * WeiPerEther);
    assert EthToWei(3.0) == Some(3 * WeiPerEther);
  }

  datatype Body = NoMilestonesYet | StatusLines(lines: seq<string>)

  /** The card body: the empty notice when no milestone matches, otherwise one
      "Paid"/"Pending" line per shown milestone, "Paid" iff `status === 1`. */
  function Render(jobId: int): (r: Body)
    ensures r.NoMilestonesYet? <==> |MilestonesFor(jobId)| == 0
    ensures r.StatusLines? ==> |r.lines| == |MilestonesFor(jobId)|
    ensures r.StatusLines? ==> forall i :: 0 <= i < |r.lines| ==>
              (r.lines[i] == "Paid" <==> MilestonesFor(jobId)[i].status == 1)
              && r.lines[i] in {"Paid", "Pending"}
  {
    var ms := MilestonesFor(jobId);
    if |ms| == 0 then NoMilestonesYet
    else StatusLines(seq(|ms|, i requires 0 <= i < |ms| => if ms[i].status == 1 then "Paid" else "Pending"))
  }

  /** The click target `/jobs/${job.id}`. */
  function ClickTarget(jobId: int): (r: string)
    ensures StripPrefix("/jobs/", r) == Some(IntToString(jobId))
  {
    assert ("/jobs/" + IntToString(jobId))[..6] == "/jobs/";
    "/jobs/" + IntToString(jobId)
  }

  /** Clicking the card of a fixture job opens its details page, which finds a job
      with that id (that very job when ids are unique); the page shows it exactly
      when that job has a milestone list, and throws otherwise. */
  lemma ClickOpensDetails(jobs: seq<Job>, k: int, address: JobDetails.Bound)
    requires 0 <= k < |jobs|
    ensures var id := StripPrefix("/jobs/", ClickTarget(jobs[k].id)).value;
            var screen := JobDetails.Render(jobs, id, address);
            && !screen.Loading?
            && (screen.Details? <==> FindJob(jobs, id).value.milestones.Some?)
            && (screen.Details? ==> screen.job.id == jobs[k].id)
  {
    FindJobByPrintedId(jobs, k);
  }
}

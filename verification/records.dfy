/** The entities the client pages pass around, the job fixture lookup they share,
    and the browser's key/value store as a map from key to parsed JSON value. */
module Records {
  import opened Common

  /** A milestone as it appears in the job fixture. `status` may be absent, in
      which case the pages treat it as 0. `amount` is in wei. */
  datatype FixtureMilestone = FixtureMilestone(id: int, description: string, amount: nat, status: Option<int>)

  /** A job of the fixture. `milestones` may be absent from a fixture entry. */
  datatype Job = Job(id: int, title: string, description: string, budget: string, owner: string,
                     milestones: Option<seq<FixtureMilestone>>)

  /** A milestone as the freelancer and owner views hold it: the fixture entry with
      a defaulted `status` and the `requested` flag the two views exchange. */
  datatype Milestone = Milestone(id: int, description: string, amount: nat, status: int, requested: bool)

  /** A project as the chain returns it and as the project list stores it for the
      details page. `status` is its JavaScript truthiness. */
  datatype Project = Project(pId: int, owner: string, title: string, description: string, budget: string,
                             deadline: int, image: string, isApproved: bool, status: bool, isAccepted: bool,
                             freelancer: Option<string>)

  /** The parsed JSON a key of the browser store holds. */
  datatype Stored = MilestoneList(items: seq<Milestone>) | ProjectRecord(project: Project)

  type Store = map<string, Stored>

  /** The one key under which the freelancer and owner views exchange milestone lists. */
  const MilestoneStatusKey: string := "milestoneStatus"

  /** The key under which the project list hands a project to its details page. */
  function ProjectKey(id: string): string {
    "project-" + id
  }

  /** Distinct project ids give distinct keys, and no project key is the milestone key. */
  lemma ProjectKeysDistinct(a: int, b: int)
    ensures ProjectKey(IntToString(a)) == ProjectKey(IntToString(b)) <==> a == b
    ensures ProjectKey(IntToString(a)) != MilestoneStatusKey
  {
    PrefixedIntInjective("project-", a, b);
    assert ProjectKey(IntToString(a))[0] == 'p' != MilestoneStatusKey[0];
  }

  /** `staticJobs.find((j) => j.id.toString() === id)`: the first job whose printed
      id is the route parameter. */
  function FindJob(jobs: seq<Job>, id: string): (r: Option<Job>)
    ensures r.Some? ==> r.value in jobs && IntToString(r.value.id) == id
    ensures r.None? ==> forall j :: j in jobs ==> IntToString(j.id) != id
    ensures r.Some? ==> exists k :: 0 <= k < |jobs| && jobs[k] == r.value
                                    && forall i :: 0 <= i < k ==> IntToString(jobs[i].id) != id
  {
    if |jobs| == 0 then None
    else if IntToString(jobs[0].id) == id then Some(jobs[0])
    else
      var rest := FindJob(jobs[1..], id);
      assert forall j :: j in jobs[1..] ==> j in jobs;
      if rest.Some? then
        ghost var k :| 0 <= k < |jobs[1..]| && jobs[1..][k] == rest.value
                       && forall i :: 0 <= i < k ==> IntToString(jobs[1..][i].id) != id;
        assert jobs[k + 1] == rest.value;
        assert forall i :: 1 <= i < k + 1 ==> jobs[i] == jobs[1..][i - 1];
        rest
      else rest
  }

  /** The route parameter printed from a job's own id finds a job with that id,
      and finds that very job when ids are unique. */
  lemma FindJobByPrintedId(jobs: seq<Job>, k: int)
    requires 0 <= k < |jobs|
    ensures FindJob(jobs, IntToString(jobs[k].id)).Some?
    ensures FindJob(jobs, IntToString(jobs[k].id)).value.id == jobs[k].id
    ensures (forall i, j :: 0 <= i < j < |jobs| ==> jobs[i].id != jobs[j].id)
            ==> FindJob(jobs, IntToString(jobs[k].id)) == Some(jobs[k])
  {
    var r := FindJob(jobs, IntToString(jobs[k].id));
    assert jobs[k] in jobs;
    IntToStringInjective(r.value.id, jobs[k].id);
    if forall i, j :: 0 <= i < j < |jobs| ==> jobs[i].id != jobs[j].id {
      var m :| 0 <= m < |jobs| && jobs[m] == r.value
               && forall i :: 0 <= i < m ==> IntToString(jobs[i].id) != IntToString(jobs[k].id);
      assert m == k;
    }
  }
}

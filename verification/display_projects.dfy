/** The project list: its header, the choice between loading, empty and cards, and
    the click that hands a project to the details page through the browser store. */
module DisplayProjects {
  import opened Common
  import opened Records
  import Card
  import ProjectDetails

  const DetailsPrefix: string := "/projectdetails/"

  /** The store after the click, and the path navigated to. */
  datatype Clicked = Clicked(store: Store, navigateTo: string)

  /** `handleNavigate`: store the project under `project-${pId}` and go to
      `/projectdetails/${pId}`. Every other key keeps its value. */
  function HandleNavigate(store: Store, project: Project): (r: Clicked)
    ensures ProjectKey(IntToString(project.pId)) in r.store
    ensures r.store[ProjectKey(IntToString(project.pId))] == ProjectRecord(project)
    ensures forall k :: k in store && k != ProjectKey(IntToString(project.pId)) ==> k in r.store && r.store[k] == store[k]
    ensures r.store.Keys == store.Keys + {ProjectKey(IntToString(project.pId))}
    ensures StripPrefix(DetailsPrefix, r.navigateTo) == Some(IntToString(project.pId))
  {
    var path := DetailsPrefix + IntToString(project.pId);
    assert path[..|DetailsPrefix|] == DetailsPrefix;
    Clicked(store[ProjectKey(IntToString(project.pId)) := ProjectRecord(project)], path)
  }

  /** The details page, given the id in the path the click produced and the store
      the click left, loads exactly the clicked project and stays. */
  lemma ClickHandsProjectToDetails(store: Store, project: Project, page: ProjectDetails.Page)
    ensures var c := HandleNavigate(store, project);
            ProjectDetails.Load(page, c.store, StripPrefix(DetailsPrefix, c.navigateTo).value)
              == ProjectDetails.Loaded(page.(project := Some(project)), None)
  {
  }

  /** A click leaves what the details page would load for every other project, and
      the milestone list, untouched. */
  lemma ClickKeepsOtherProjects(store: Store, project: Project, other: int, page: ProjectDetails.Page)
    requires other != project.pId
    ensures ProjectDetails.Load(page, HandleNavigate(store, project).store, IntToString(other))
            == ProjectDetails.Load(page, store, IntToString(other))
    ensures (MilestoneStatusKey in HandleNavigate(store, project).store) == (MilestoneStatusKey in store)
    ensures MilestoneStatusKey in store ==> HandleNavigate(store, project).store[MilestoneStatusKey] == store[MilestoneStatusKey]
  {
    ProjectKeysDistinct(project.pId, other);
    ProjectKeysDistinct(project.pId, project.pId);
  }

  /** The heading `${title} (${projects.length})`. */
  function Header(title: string, count: nat): (r: string)
    ensures |r| > |title| + 2 && r[..|title|] == title && r[|r| - 1] == ')'
  {
    title + " (" + NatToString(count) + ")"
  }

  /** The heading determines the count: two different counts give different headings. */
  lemma HeaderShowsCount(title: string, a: nat, b: nat)
    ensures Header(title, a) == Header(title, b) <==> a == b
  {
    if Header(title, a) == Header(title, b) {
      var ha := Header(title, a);
      var hb := Header(title, b);
      assert ha[|title| + 2 .. |ha| - 1] == NatToString(a);
      assert hb[|title| + 2 .. |hb| - 1] == NatToString(b);
      NatToStringInjective(a, b);
    }
  }

  /** A card of the list: its React key and its badge. */
  datatype CardView = CardView(key: int, badge: string)

  datatype Listing = Loading | NoProjectsYet | Cards(cards: seq<CardView>)

  /** "Loading..." first, then "No projects yet!" for an empty list, otherwise one
      card per project in list order, keyed by `pId`. */
  function Render(isLoading: bool, projects: seq<Project>): (r: Listing)
    ensures r.Loading? <==> isLoading
    ensures r.NoProjectsYet? <==> !isLoading && |projects| == 0
    ensures r.Cards? ==> |r.cards| == |projects| > 0
    ensures r.Cards? ==> forall i :: 0 <= i < |projects| ==>
              r.cards[i] == CardView(projects[i].pId, Card.StatusLabel(projects[i].isApproved, projects[i].status))
  {
    if isLoading then Loading
    else if |projects| == 0 then NoProjectsYet
    else Cards(seq(|projects|, i requires 0 <= i < |projects| =>
                     CardView(projects[i].pId, Card.StatusLabel(projects[i].isApproved, projects[i].status))))
  }

  /** Clicking the card at position `i` of the rendered list hands exactly
      `projects[i]` to the details page: the store holds it under the card's key and
      the details page loads it. Its badge there agrees with the card's unless the
      project is finished but was never approved. */
  lemma ClickedCardIsListed(isLoading: bool, projects: seq<Project>, i: int, store: Store, page: ProjectDetails.Page)
    requires Render(isLoading, projects).Cards? && 0 <= i < |Render(isLoading, projects).cards|
    ensures var card := Render(isLoading, projects).cards[i];
            var c := HandleNavigate(store, projects[i]);
            && c.store[ProjectKey(IntToString(card.key))] == ProjectRecord(projects[i])
            && ProjectDetails.Load(page, c.store, StripPrefix(DetailsPrefix, c.navigateTo).value).page.project == Some(projects[i])
            && (card.badge == ProjectDetails.Capitalised(ProjectDetails.StatusLabel(projects[i]))
                <==> projects[i].isApproved || !projects[i].status)
  {
    ClickHandsProjectToDetails(store, projects[i], page);
    ProjectDetails.BadgesAgreeUnlessUnapprovedFinished(projects[i]);
  }
}

/** The public projects section: the loading guard, the category filter and the image predicate. */
module ProjectsView {
  import opened Options
  import opened JsText
  import opened Content
  import opened Seqs
  import opened PortfolioProvider

  /** The filter buttons, in order; the first is the initial selection. */
  /** The filter buttons, in order; the selection starts at the first one. */
  const Categories: seq<string> := ["All", "Full-Stack", "Frontend", "Backend"]
  const ShowAll: string := "All"

  /** The projects the section renders from, or `None` when it renders nothing. */
  function Shown(loading: bool, data: Option<Combined>): (r: Option<seq<Project>>)
    ensures r.None? <==> loading || data.None?
    ensures r.Some? ==> r.value == data.value.projects
  {
    if loading || data.None? then None else Some(data.value.projects)
  }

  /** `project.category === filter` */
  function HasCategory(filter: string): Project -> bool {
    (p: Project) => p.data.category == filter
  }

  /** `filteredProjects` */
  function FilteredProjects(projects: seq<Project>, filter: string): (r: seq<Project>)
    ensures filter == ShowAll ==> r == projects
    ensures filter != ShowAll ==> forall i :: 0 <= i < |r| ==> r[i] in projects && r[i].data.category == filter
    ensures filter != ShowAll ==> forall i :: 0 <= i < |projects| && projects[i].data.category == filter ==> projects[i] in r
  {
    if filter == ShowAll then projects else Filter(projects, HasCategory(filter))
  }

  /**
   * Any other filter keeps exactly the projects of that category, each as often as it occurs,
   * in their original order.
   */
  lemma FilterExact(projects: seq<Project>, filter: string, p: Project)
    requires filter != ShowAll
    ensures IsSubsequence(FilteredProjects(projects, filter), projects)
    ensures multiset(FilteredProjects(projects, filter))[p] ==
      if p.data.category == filter then multiset(projects)[p] else 0
  {
    FilterIsSubsequence(projects, HasCategory(filter));
    FilterCounts(projects, HasCategory(filter), p);
  }

  /** The initial selection, the first filter button, shows every project; each other button is a category. */
  lemma InitialSelectionShowsAll(projects: seq<Project>)
    ensures FilteredProjects(projects, Categories[0]) == projects
    ensures forall i :: 1 <= i < |Categories| ==> Categories[i] != ShowAll
  {
  }

  /** Filtering the filtered list again with the same selection changes nothing. */
  lemma RefilterStable(projects: seq<Project>, filter: string)
    ensures FilteredProjects(FilteredProjects(projects, filter), filter) == FilteredProjects(projects, filter)
  {
    if filter != ShowAll {
      FilterIdempotent(projects, HasCategory(filter));
    }
  }

  /** The "No projects found" message shows exactly when nothing is left after filtering. */
  predicate ShowsNoResults(projects: seq<Project>, filter: string) {
    |FilteredProjects(projects, filter)| == 0
  }

  lemma NoResultsIff(projects: seq<Project>, filter: string)
    ensures ShowsNoResults(projects, filter) <==>
      if filter == ShowAll then projects == []
      else forall i :: 0 <= i < |projects| ==> projects[i].data.category != filter
  {
    if filter != ShowAll {
      FilterEmptyIff(projects, HasCategory(filter));
    }
  }

  /** `project.image && project.image.trim() !== ''` */
  predicate ShowsImage(p: Project) {
    p.data.image.Some? && p.data.image.value != [] && Trim(p.data.image.value) != []
  }

  /** A card shows the image exactly when the image text has a character that is not white space. */
  lemma ShowsImageIff(p: Project)
    ensures ShowsImage(p) <==> p.data.image.Some? && !AllSpace(p.data.image.value)
  {
    if p.data.image.Some? {
      TrimEmptyIffAllSpace(p.data.image.value);
    }
  }
}

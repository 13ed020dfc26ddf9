/**
 * The portfolio data provider: one load at mount that reads the fixed profile row,
 * then the projects and the skills, and publishes `{portfolioData, loading, error, useSupabase}`.
 */
module PortfolioProvider {
  import opened Options
  import opened JsValues
  import opened Content
  import opened ContentService

  /** The two connection settings from the environment; `None` when unset. */
  datatype Config = Config(url: Option<string>, key: Option<string>)

  /** An environment value is set when it is present and non-empty. */
  predicate IsSet(v: Option<string>) {
    v.Some? && v.value != []
  }

  predicate Configured(c: Config) {
    IsSet(c.url) && IsSet(c.key)
  }

  /** How a store request came back: `{data, error}`, or it threw. */
  datatype Answer<T> = Response(data: Option<T>, error: Option<Fault>) | Thrown(fault: Fault)

  /** What the provider publishes as `portfolioData`. */
  datatype Combined = Combined(
    hero: JsValue,
    about: JsValue,
    contact: JsValue,
    social: JsValue,
    projects: seq<Project>,
    skills: seq<Skill>)

  /** The section of the published data that belongs to `s`. */
  function SectionOf(c: Combined, s: Section): JsValue {
    match s
    case Hero => c.hero
    case About => c.about
    case ContactInfo => c.contact
    case Social => c.social
  }

  /** How the load ends: an error to publish, or the data. */
  datatype Fetched = Failed(error: Option<string>) | Loaded(data: Combined)

  const ConfigMissing := "Supabase not configured. Please check your environment variables."
  const FetchFailed := "Failed to fetch portfolio data from Supabase. Please check your connection."
  const NoData := "No portfolio data found. Please run the SQL migration in Supabase."

  /**
   * `parseJsonb`: a falsy value becomes `null`, a string is parsed when `parse` (standing for
   * `JSON.parse`, `None` when it throws) accepts it and kept otherwise, anything else is kept.
   */
  function ParseJsonb(v: JsValue, parse: string -> Option<JsValue>): (r: JsValue)
    ensures !Truthy(v) ==> r == Null
    ensures Truthy(v) && !v.Str? ==> r == v
    ensures Truthy(v) && v.Str? && parse(v.s).None? ==> r == v
    ensures Truthy(v) && v.Str? && parse(v.s).Some? ==> r == parse(v.s).value
  {
    if !Truthy(v) then Null
    else if v.Str? then
      match parse(v.s)
      case Some(j) => j
      case None => v
    else v
  }

  /** `combinedData`: the four sections through `parseJsonb`, the lists defaulting to `[]`. */
  function CombinedData(row: Row, projects: Option<seq<Project>>, skills: Option<seq<Skill>>,
                        parse: string -> Option<JsValue>): (c: Combined)
    ensures forall s :: SectionOf(c, s) == ParseJsonb(Cell(row, Column(s)), parse)
    ensures c.projects == projects.GetOr([]) && c.skills == skills.GetOr([])
  {
    Combined(
      ParseJsonb(Cell(row, "hero"), parse),
      ParseJsonb(Cell(row, "about"), parse),
      ParseJsonb(Cell(row, "contact"), parse),
      ParseJsonb(Cell(row, "social"), parse),
      projects.GetOr([]),
      skills.GetOr([]))
  }

  /** The profile row and error once the request is done; a body-already-used error is dropped when a row came back. */
  function ProfileResult(a: Answer<Row>): (r: (Option<Row>, Option<Fault>))
    ensures a.Thrown? ==> r == (None, Some(a.fault))
    ensures a.Response? ==> r.0 == a.data
    ensures a.Response? && a.data.None? ==> r.1 == a.error
  {
    match a
    case Thrown(f) => (None, Some(f))
    case Response(d, e) =>
      if e.Some? && MessageHas(e.value, BodyUsed) && d.Some? then (d, None) else (d, e)
  }

  /** The outcome of `fetchPortfolioData`, path by path. */
  function Fetch(cfg: Config, profile: Answer<Row>, projects: Answer<seq<Project>>,
                 skills: Answer<seq<Skill>>, parse: string -> Option<JsValue>): Fetched
  {
    if !Configured(cfg) then Failed(Some(ConfigMissing))
    else
      var (row, err) := ProfileResult(profile);
      if err.Some? && row.None? then Failed(Some(FetchFailed))
      else if row.None? then Failed(Some(NoData))
      else match projects
        case Thrown(f) => Failed(f.message)
        case Response(pd, _) =>
          match skills
          case Thrown(f) => Failed(f.message)
          case Response(sd, _) => Loaded(CombinedData(row.value, pd, sd, parse))
  }

  /** Without both settings nothing is fetched: the outcome does not depend on any reply. */
  lemma MissingConfigFails(cfg: Config, profile: Answer<Row>, projects: Answer<seq<Project>>,
                           skills: Answer<seq<Skill>>, parse: string -> Option<JsValue>)
    requires !Configured(cfg)
    ensures Fetch(cfg, profile, projects, skills, parse) == Failed(Some(ConfigMissing))
  {
  }

  /** A profile error with no row is a fetch failure; no error and no row means the row is missing. */
  lemma MissingRowFails(cfg: Config, profile: Answer<Row>, projects: Answer<seq<Project>>,
                        skills: Answer<seq<Skill>>, parse: string -> Option<JsValue>)
    requires Configured(cfg)
    requires profile.Thrown? || profile.data.None?
    ensures profile.Thrown? || profile.error.Some? ==>
      Fetch(cfg, profile, projects, skills, parse) == Failed(Some(FetchFailed))
    ensures profile.Response? && profile.error.None? ==>
      Fetch(cfg, profile, projects, skills, parse) == Failed(Some(NoData))
  {
  }

  /** Once the row is there, a thrown projects or skills request publishes that error's message. */
  lemma ListThrowFails(cfg: Config, profile: Answer<Row>, projects: Answer<seq<Project>>,
                       skills: Answer<seq<Skill>>, parse: string -> Option<JsValue>)
    requires Configured(cfg) && profile.Response? && profile.data.Some?
    ensures projects.Thrown? ==>
      Fetch(cfg, profile, projects, skills, parse) == Failed(projects.fault.message)
    ensures projects.Response? && skills.Thrown? ==>
      Fetch(cfg, profile, projects, skills, parse) == Failed(skills.fault.message)
  {
  }

  /** Once a row came back, its accompanying error (body-already-used or not) makes no difference. */
  lemma RowOutweighsError(cfg: Config, row: Row, e1: Option<Fault>, e2: Option<Fault>,
                          projects: Answer<seq<Project>>, skills: Answer<seq<Skill>>,
                          parse: string -> Option<JsValue>)
    ensures Fetch(cfg, Response(Some(row), e1), projects, skills, parse)
         == Fetch(cfg, Response(Some(row), e2), projects, skills, parse)
  {
  }

  /**
   * The load succeeds exactly when the settings are there, a row came back and neither list request
   * threw; errors in the list replies do not block it, and a missing list becomes `[]`.
   */
  lemma LoadedIff(cfg: Config, profile: Answer<Row>, projects: Answer<seq<Project>>,
                  skills: Answer<seq<Skill>>, parse: string -> Option<JsValue>)
    ensures Fetch(cfg, profile, projects, skills, parse).Loaded? <==>
      Configured(cfg) && profile.Response? && profile.data.Some? && projects.Response? && skills.Response?
    ensures Fetch(cfg, profile, projects, skills, parse).Loaded? ==>
      var d := Fetch(cfg, profile, projects, skills, parse).data;
      && d.projects == projects.data.GetOr([])
      && d.skills == skills.data.GetOr([])
      && forall s :: SectionOf(d, s) == ParseJsonb(Cell(profile.data.value, Column(s)), parse)
  {
  }

  /** The reply of `.eq('id', PortfolioId).maybeSingle()` on a store that answers cleanly. */
  function ProfileQuery(t: map<string, Row>): (a: Answer<Row>)
    ensures a.Response? && a.error.None?
    ensures a.data.Some? <==> PortfolioId in t
    ensures PortfolioId in t ==> a.data.value == t[PortfolioId]
  {
    Response(if PortfolioId in t then Some(t[PortfolioId]) else None, None)
  }

  /**
   * Round trip through the store: an object saved into a section by the admin panel is exactly what
   * the next load publishes for that section, and the other sections load as before.
   */
  lemma SavedSectionLoads(t: map<string, Row>, section: Section, m: map<string, JsValue>, other: Section,
                          cfg: Config, projects: Answer<seq<Project>>, skills: Answer<seq<Skill>>,
                          parse: string -> Option<JsValue>)
    requires PortfolioId in t
    requires Configured(cfg) && projects.Response? && skills.Response?
    ensures var f := Fetch(cfg, ProfileQuery(UpdateSection(t, section, Obj(m))), projects, skills, parse);
      && f.Loaded?
      && SectionOf(f.data, section) == Obj(m)
      && (other != section ==>
          SectionOf(f.data, other) == ParseJsonb(Cell(t[PortfolioId], Column(other)), parse))
  {
    var u := UpdateSection(t, section, Obj(m));
    SectionWriteRead(t, section, Obj(m), other);
    LoadedIff(cfg, ProfileQuery(u), projects, skills, parse);
  }

  /** The provider's published state. */
  class Provider {
    var portfolioData: Option<Combined>
    var loading: bool
    var error: Option<string>
    var useSupabase: bool

    /** The state before the load: no data, loading, no error, not using the store. */
    constructor ()
      ensures portfolioData == None && loading && error == None && !useSupabase
    {
      portfolioData, loading, error, useSupabase := None, true, None, false;
    }

    /**
     * `fetchPortfolioData`: each early return sets the error; the success path publishes the data and
     * marks the store in use; `loading` is cleared on every path.
     */
    method FetchPortfolioData(cfg: Config, profile: Answer<Row>, projects: Answer<seq<Project>>,
                              skills: Answer<seq<Skill>>, parse: string -> Option<JsValue>)
      modifies this
      ensures !loading
      ensures var f := Fetch(cfg, profile, projects, skills, parse);
        f.Loaded? ==> portfolioData == Some(f.data) && useSupabase && error == old(error)
      ensures var f := Fetch(cfg, profile, projects, skills, parse);
        f.Failed? ==> error == f.error && portfolioData == old(portfolioData) && useSupabase == old(useSupabase)
    {
      if !Configured(cfg) {
        error := Some(ConfigMissing);
        loading := false;
        return;
      }
      var row: Option<Row> := None;
      var err: Option<Fault> := None;
      match profile {
        case Thrown(f) =>
          err := Some(f);
        case Response(d, e) =>
          row, err := d, e;
          if err.Some? && MessageHas(err.value, BodyUsed) {
            if row.Some? {
              err := None;
            }
          }
      }
      if err.Some? && row.None? {
        error := Some(FetchFailed);
        loading := false;
        return;
      }
      if row.None? {
        error := Some(NoData);
        loading := false;
        return;
      }
      if projects.Thrown? {
        error := projects.fault.message;
        loading := false;
        return;
      }
      if skills.Thrown? {
        error := skills.fault.message;
        loading := false;
        return;
      }
      portfolioData := Some(CombinedData(row.value, projects.data, skills.data, parse));
      useSupabase := true;
      loading := false;
    }
  }
}

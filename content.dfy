/**
 * The content entities: contact messages, projects, skill groups and the singleton
 * portfolio row with its four JSONB sections.
 */
module Content {
  import opened Options
  import opened JsValues

  /** A `contact_messages` row; `id` and `createdAt` are assigned by the store. */
  datatype Message = Message(id: int, name: string, email: string, subject: string, message: string, createdAt: int)

  /** The columns of a `projects` row that the admin form writes. */
  datatype ProjectData = ProjectData(
    title: string,
    category: string,
    description: string,
    technologies: seq<string>,
    image: Option<string>,
    link: string,
    featured: bool)

  /** A `projects` row as read back, with its store-assigned id. */
  datatype Project = Project(id: int, data: ProjectData)

  /** The columns of a `skills` row that the admin form writes. */
  datatype SkillData = SkillData(category: string, technologies: seq<string>)

  /** A `skills` row as read back, with its store-assigned id. */
  datatype Skill = Skill(id: int, data: SkillData)

  /** A `portfolio_data` row: column name to raw column value. */
  type Row = map<string, JsValue>

  /** The four JSONB sections of the portfolio row. */
  datatype Section = Hero | About | ContactInfo | Social

  /** The column that holds a section. */
  function Column(s: Section): (c: string)
    ensures c in Columns
  {
    match s
    case Hero => "hero"
    case About => "about"
    case ContactInfo => "contact"
    case Social => "social"
  }

  const Columns: set<string> := {"hero", "about", "contact", "social"}

  /** Distinct sections live in distinct columns. */
  lemma ColumnInjective(s: Section, t: Section)
    ensures Column(s) == Column(t) <==> s == t
  {
  }

  /** The fixed identifier of the one portfolio row. */
  const PortfolioId: string := "00000000-0000-0000-0000-000000000001"

  /** The value of a column, `undefined` when the row lacks it. */
  function Cell(row: Row, column: string): (v: JsValue)
    ensures column in row ==> v == row[column]
    ensures column !in row ==> v == Undefined
  {
    if column in row then row[column] else Undefined
  }
}

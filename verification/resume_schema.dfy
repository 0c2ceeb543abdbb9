/** The resume document: the fields, required flags and defaults the
    Mongoose schema declares (server/models/Resume.js). */
module ResumeSchema {
  import opened Js

  /** Document identifiers are opaque; the store hands them out. */
  type Id = nat

  const UNTITLED := "Untitled Resume"
  const DEFAULT_SKILL_LEVEL := "Intermediate"
  const DEFAULT_THEME_COLOR := "#2563eb"

  /** The six array-valued sections of a resume. */
  datatype Section = Education | Experience | Skills | Projects | Responsibilities | Achievements

  /** Every property name an entry of some section can carry. */
  datatype Field =
    | Institution | Degree | FieldOfStudy | Company | Position | StartDate | EndDate
    | Current | Description | Name | Level | Technologies | Link | Role | Organization
    | Title | Date | Hidden

  /** One entry of a section, one constructor per section record type.
      Every string property may be missing. `hidden` is written by the
      editor; the schema itself declares no such field (see DeclaredFields). */
  datatype Entry =
    | EducationEntry(institution: Text, degree: Text, fieldOfStudy: Text, startDate: Text,
                     endDate: Text, current: Option<bool>, description: Text, hidden: Option<bool>)
    | ExperienceEntry(company: Text, position: Text, startDate: Text, endDate: Text,
                      current: Option<bool>, description: Text, hidden: Option<bool>)
    | SkillEntry(name: Text, level: Text, hidden: Option<bool>)
    | ProjectEntry(name: Text, description: Text, technologies: Text, link: Text, hidden: Option<bool>)
    | ResponsibilityEntry(role: Text, organization: Text, startDate: Text, endDate: Text,
                          description: Text, hidden: Option<bool>)
    | AchievementEntry(title: Text, date: Text, description: Text, hidden: Option<bool>)

  datatype PersonalInfo = PersonalInfo(fullName: Text, email: Text, phone: Text,
                                       address: Text, linkedin: Text, website: Text)

  /** A resume document as stored and as sent over the wire. A section is
      None when the JSON object lacks that array. */
  datatype Resume = Resume(
    id: Id,
    userId: string,
    title: string,
    personalInfo: PersonalInfo,
    summary: string,
    education: Option<seq<Entry>>,
    experience: Option<seq<Entry>>,
    skills: Option<seq<Entry>>,
    projects: Option<seq<Entry>>,
    responsibilities: Option<seq<Entry>>,
    achievements: Option<seq<Entry>>,
    themeColor: string,
    createdAt: nat,
    updatedAt: nat)

  /** The fields the schema declares for each section's records. */
  function DeclaredFields(s: Section): (fs: set<Field>)
    ensures Hidden !in fs
    ensures Description in fs <==> s != Skills
    ensures Current in fs <==> s == Education || s == Experience
  {
    match s
    case Education => {Institution, Degree, FieldOfStudy, StartDate, EndDate, Current, Description}
    case Experience => {Company, Position, StartDate, EndDate, Current, Description}
    case Skills => {Name, Level}
    case Projects => {Name, Description, Technologies, Link}
    case Responsibilities => {Role, Organization, StartDate, EndDate, Description}
    case Achievements => {Title, Date, Description}
  }

  /** The section whose record type an entry has. */
  function KindOf(e: Entry): Section {
    match e
    case EducationEntry(_, _, _, _, _, _, _, _) => Education
    case ExperienceEntry(_, _, _, _, _, _, _) => Experience
    case SkillEntry(_, _, _) => Skills
    case ProjectEntry(_, _, _, _, _) => Projects
    case ResponsibilityEntry(_, _, _, _, _, _) => Responsibilities
    case AchievementEntry(_, _, _, _) => Achievements
  }

  /** The properties an entry carries: its section's declared fields and `hidden`. */
  function FieldsOf(e: Entry): set<Field> {
    DeclaredFields(KindOf(e)) + {Hidden}
  }

  /** `resume[section]`. */
  function Items(r: Resume, s: Section): Option<seq<Entry>> {
    match s
    case Education => r.education
    case Experience => r.experience
    case Skills => r.skills
    case Projects => r.projects
    case Responsibilities => r.responsibilities
    case Achievements => r.achievements
  }

  /** `{ ...r, [section]: v }`: replaces one section and nothing else. */
  function WithItems(r: Resume, s: Section, v: Option<seq<Entry>>): (r': Resume)
    ensures Items(r', s) == v
    ensures forall t :: t != s ==> Items(r', t) == Items(r, t)
    ensures SameOutsideSections(r', r)
  {
    match s
    case Education => r.(education := v)
    case Experience => r.(experience := v)
    case Skills => r.(skills := v)
    case Projects => r.(projects := v)
    case Responsibilities => r.(responsibilities := v)
    case Achievements => r.(achievements := v)
  }

  /** The two documents agree on every field that is not a section array. */
  predicate SameOutsideSections(a: Resume, b: Resume) {
    && a.id == b.id && a.userId == b.userId && a.title == b.title
    && a.personalInfo == b.personalInfo && a.summary == b.summary
    && a.themeColor == b.themeColor && a.createdAt == b.createdAt && a.updatedAt == b.updatedAt
  }

  function OrEmpty(items: Option<seq<Entry>>): seq<Entry> {
    PresentOr(items, [])
  }

  /** Every section array is present. */
  predicate AllSectionsPresent(r: Resume) {
    && r.education.Some? && r.experience.Some? && r.skills.Some?
    && r.projects.Some? && r.responsibilities.Some? && r.achievements.Some?
  }

  /** Every entry sits in the section whose record type it has. */
  predicate Conforms(r: Resume) {
    forall s, e :: e in OrEmpty(Items(r, s)) ==> KindOf(e) == s
  }

  /** The document `new Resume({ userId })` yields, saved at time `now`:
      every default of the schema applied, arrays empty. */
  function Defaults(id: Id, userId: string, now: nat): (d: Resume)
    ensures AllSectionsPresent(d) && Conforms(d)
    ensures forall s :: Items(d, s) == Some([])
    ensures d.createdAt == d.updatedAt == now
    ensures d.id == id && d.userId == userId && d.title == UNTITLED && d.summary == ""
    ensures d.themeColor == DEFAULT_THEME_COLOR
    ensures d.personalInfo == PersonalInfo(Some(""), Some(""), Some(""), Some(""), Some(""), Some(""))
  {
    Resume(id, userId, UNTITLED,
           PersonalInfo(Some(""), Some(""), Some(""), Some(""), Some(""), Some("")),
           "", Some([]), Some([]), Some([]), Some([]), Some([]), Some([]),
           DEFAULT_THEME_COLOR, now, now)
  }

  /** A skill that arrives without a `level` receives the schema default. */
  function WithSkillDefault(e: Entry): (e': Entry)
    ensures KindOf(e') == KindOf(e)
    ensures e'.SkillEntry? ==> e'.level.Some? && e'.name == e.name && e'.hidden == e.hidden
    ensures e.SkillEntry? && e.level == None ==> e'.level == Some(DEFAULT_SKILL_LEVEL)
    ensures !(e.SkillEntry? && e.level == None) ==> e' == e
  {
    if e.SkillEntry? && e.level == None then e.(level := Some(DEFAULT_SKILL_LEVEL)) else e
  }

  /** Casting a `skills` array into skill subdocuments applies the default
      level entry by entry, keeping order and length. */
  function CastSkills(items: seq<Entry>): (r: seq<Entry>)
    ensures |r| == |items|
    ensures forall i :: 0 <= i < |r| ==> r[i] == WithSkillDefault(items[i])
  {
    seq(|items|, i requires 0 <= i < |items| => WithSkillDefault(items[i]))
  }

  /** A skill subdocument passes the `required` check on `name` only when
      the name is a non-empty string. */
  predicate NamedSkill(e: Entry) {
    e.SkillEntry? && Truthy(e.name)
  }

  /** The `required` flags of the schema: a save fails unless `userId`,
      `title` and every skill's `name` are non-empty strings. */
  predicate SchemaValid(d: Resume)
    ensures SchemaValid(d) ==> forall e :: e in OrEmpty(d.skills) ==> KindOf(e) == Skills
    ensures OrEmpty(d.skills) == [] ==> (SchemaValid(d) <==> d.userId != "" && d.title != "")
  {
    && d.userId != ""
    && d.title != ""
    && forall e :: e in OrEmpty(d.skills) ==> NamedSkill(e)
  }

  /** The defaults alone satisfy the schema exactly when a user id was given. */
  lemma DefaultsValid(id: Id, userId: string, now: nat)
    ensures SchemaValid(Defaults(id, userId, now)) <==> userId != ""
  {
  }
}

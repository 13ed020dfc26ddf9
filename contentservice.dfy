/**
 * The content service: every call goes to the store and comes back as
 * `{success, data | error}`. The store itself is an abstract set of tables
 * (maps from id to row); whether a call fails, and how, is an input.
 */
module ContentService {
  import opened Options
  import opened JsText
  import opened JsValues
  import opened Content

  /**
   * An error object as the store client returns or throws it:
   * `code`, `status`, `message`, and `text` for what `String(error)` gives.
   */
  datatype Fault = Fault(code: Option<string>, status: Option<int>, message: Option<string>, text: string)

  /** `error.message?.includes(t)` */
  predicate MessageHas(f: Fault, t: string) {
    f.message.Some? && Contains(f.message.value, t)
  }

  /** The result shape of every service call other than the contact form: `error` is `error.message`. */
  datatype Reply<T> = Ok(data: T) | Err(error: Option<string>)

  /** A call that either failed with `fault` or produced `data`; nothing escapes as an exception. */
  function ReplyTo<T>(fault: Option<Fault>, data: T): (r: Reply<T>)
    ensures r.Ok? <==> fault.None?
    ensures r.Ok? ==> r.data == data
    ensures r.Err? ==> r.error == fault.value.message
  {
    match fault
    case None => Ok(data)
    case Some(f) => Err(f.message)
  }

  // ---------------------------------------------------------------- the contact form

  /** What the visitor typed; a missing field is the empty string (both are falsy). */
  datatype ContactForm = ContactForm(name: string, email: string, subject: string, message: string)

  /** The result of `submitContactForm`. */
  datatype ContactReply =
    | Sent(data: Option<seq<Message>>, warning: Option<string>)
    | Refused(error: string)

  /** How the insert request went: it threw, or it returned with or without an error. */
  datatype Attempt = Threw(fault: Fault) | Answered(error: Option<Fault>)

  const Required := "All fields are required"
  const BodyUsed := "Response body is already used"
  const NotConfiguredThrown := "Contact form not configured. Please run ULTIMATE_FIX.sql in Supabase."
  const NotConfigured := "Contact form not configured. Please run ULTIMATE_FIX.sql in Supabase SQL Editor."
  const NeedsMigration := "Contact form is not configured. Please run the contact_messages SQL migration in Supabase."
  const MayHaveSucceeded := "Submission may have succeeded. Please check your messages."
  const MayHaveSucceededWarning := "Submission may have succeeded"
  const UnknownError := "Unknown error"

  /** The four fields are truthy, i.e. non-empty; they are checked before trimming. */
  predicate IsComplete(f: ContactForm) {
    f.name != [] && f.email != [] && f.subject != [] && f.message != []
  }

  /** The record handed to the insert: every field trimmed. */
  function TrimmedRecord(f: ContactForm): (r: ContactForm)
    ensures IsTrimmed(r.name) && IsTrimmed(r.email) && IsTrimmed(r.subject) && IsTrimmed(r.message)
    ensures IsTrimmed(f.name) ==> r.name == f.name
    ensures IsTrimmed(f.email) ==> r.email == f.email
    ensures IsTrimmed(f.subject) ==> r.subject == f.subject
    ensures IsTrimmed(f.message) ==> r.message == f.message
  {
    assert IsTrimmed(f.name) ==> Trim(f.name) == f.name by {
      if IsTrimmed(f.name) { TrimTrimmed(f.name); }
    }
    assert IsTrimmed(f.email) ==> Trim(f.email) == f.email by {
      if IsTrimmed(f.email) { TrimTrimmed(f.email); }
    }
    assert IsTrimmed(f.subject) ==> Trim(f.subject) == f.subject by {
      if IsTrimmed(f.subject) { TrimTrimmed(f.subject); }
    }
    assert IsTrimmed(f.message) ==> Trim(f.message) == f.message by {
      if IsTrimmed(f.message) { TrimTrimmed(f.message); }
    }
    ContactForm(Trim(f.name), Trim(f.email), Trim(f.subject), Trim(f.message))
  }

  /** The `contact_messages` row the store makes from a submission: trimmed fields, the given id and time. */
  function StoredRow(f: ContactForm, id: int, now: int): (m: Message)
    ensures m.id == id && m.createdAt == now
    ensures m.name == Trim(f.name) && m.email == Trim(f.email)
    ensures m.subject == Trim(f.subject) && m.message == Trim(f.message)
  {
    var rec := TrimmedRecord(f);
    Message(id, rec.name, rec.email, rec.subject, rec.message, now)
  }

  /** The error `submitContactForm` throws when a field is missing. */
  const RequiredFault := Fault(None, None, Some(Required), "Error: " + Required)

  /** The fault marks the contact table or its policies as missing (the catch-all's test). */
  predicate IsSetupFault(e: Fault) {
    || e.code == Some("PGRST301")
    || MessageHas(e, "permission denied")
    || e.status == Some(401)
    || MessageHas(e, "401")
    || e.code == Some("42501")
  }

  /** The message the catch-all of `submitContactForm` reports for an error it caught. */
  function CaughtMessage(e: Fault): (m: string)
    ensures IsSetupFault(e) ==> m == NeedsMigration
    ensures !IsSetupFault(e) && MessageHas(e, BodyUsed) ==> m == MayHaveSucceeded
    ensures !IsSetupFault(e) && !MessageHas(e, BodyUsed) ==>
      m == if e.message.Some? && e.message.value != [] then e.message.value else UnknownError
  {
    var fallback := if e.message.Some? && e.message.value != [] then e.message.value else UnknownError;
    if IsSetupFault(e) then NeedsMigration
    else if MessageHas(e, BodyUsed) then MayHaveSucceeded
    else fallback
  }

  /**
   * The reply of `submitContactForm`, given how the insert went and the row the store made.
   * Data is reported only for a clean insert, and then it is that row; a warning only comes with
   * a thrown error; a refusal always says something.
   */
  function SubmitReply(form: ContactForm, attempt: Attempt, inserted: Message): (r: ContactReply)
    ensures r.Sent? ==> IsComplete(form)
    ensures r.Sent? && r.data.Some? <==> IsComplete(form) && attempt == Answered(None)
    ensures r.Sent? && r.data.Some? ==> r.data.value == [inserted] && r.warning.None?
    ensures r.Sent? && r.warning.Some? ==> attempt.Threw? && r.warning.value == MayHaveSucceededWarning
    ensures r.Refused? ==> r.error != []
  {
    if !IsComplete(form) then Refused(CaughtMessage(RequiredFault))
    else match attempt
      case Threw(f) =>
        if MessageHas(f, "401") || Contains(f.text, "401") then Refused(NotConfiguredThrown)
        else if MessageHas(f, BodyUsed) then Sent(None, Some(MayHaveSucceededWarning))
        else Refused(CaughtMessage(f))
      case Answered(Some(e)) =>
        if MessageHas(e, BodyUsed) then Sent(None, None)
        else if e.code == Some("PGRST301") || e.status == Some(401) || MessageHas(e, "401") then Refused(NotConfigured)
        else Refused(CaughtMessage(e))
      case Answered(None) => Sent(Some([inserted]), None)
  }

  /**
   * A thrown insert error: one mentioning 401 (in its message or its text) means the table is
   * missing; otherwise a body-already-used error may have succeeded; anything else goes to the
   * catch-all.
   */
  lemma ThrownInsertReply(form: ContactForm, f: Fault, inserted: Message)
    requires IsComplete(form)
    ensures MessageHas(f, "401") || Contains(f.text, "401") ==>
      SubmitReply(form, Threw(f), inserted) == Refused(NotConfiguredThrown)
    ensures !(MessageHas(f, "401") || Contains(f.text, "401")) && MessageHas(f, BodyUsed) ==>
      SubmitReply(form, Threw(f), inserted) == Sent(None, Some(MayHaveSucceededWarning))
    ensures !(MessageHas(f, "401") || Contains(f.text, "401")) && !MessageHas(f, BodyUsed) ==>
      SubmitReply(form, Threw(f), inserted) == Refused(CaughtMessage(f))
  {
  }

  /**
   * An error in the insert's reply: body-already-used counts as sent without data; a 401-style
   * error means the table is missing; anything else goes to the catch-all.
   */
  lemma AnsweredErrorReply(form: ContactForm, e: Fault, inserted: Message)
    requires IsComplete(form)
    ensures MessageHas(e, BodyUsed) ==> SubmitReply(form, Answered(Some(e)), inserted) == Sent(None, None)
    ensures !MessageHas(e, BodyUsed) && !(e.code == Some("PGRST301") || e.status == Some(401) || MessageHas(e, "401")) ==>
      SubmitReply(form, Answered(Some(e)), inserted) == Refused(CaughtMessage(e))
  {
  }

  /**
   * A reply error with code 42501 that is neither body-already-used nor 401-style is rethrown
   * and reported by the catch-all as a missing migration.
   */
  lemma PermissionReplyNeedsMigration(form: ContactForm, e: Fault, inserted: Message)
    requires IsComplete(form)
    requires e.code == Some("42501") && e.status != Some(401)
    requires !MessageHas(e, BodyUsed) && !MessageHas(e, "401")
    ensures SubmitReply(form, Answered(Some(e)), inserted) == Refused(NeedsMigration)
  {
  }

  /** The store is consulted only after validation: the insert's outcome is irrelevant to a missing field. */
  lemma IncompleteFormRefused(form: ContactForm, attempt: Attempt, inserted: Message)
    requires !IsComplete(form)
    ensures SubmitReply(form, attempt, inserted) == Refused(Required)
  {
    RequiredIsReported();
  }

  /** The catch-all passes the missing-field error's own message through. */
  lemma RequiredIsReported()
    ensures CaughtMessage(RequiredFault) == Required
  {
    RequiredLacks("permission denied");
    RequiredLacks("401");
    RequiredLacks(BodyUsed);
    assert !IsSetupFault(RequiredFault);
  }

  /** The missing-field message contains none of the texts the catch-all looks for. */
  lemma RequiredLacks(t: string)
    requires t == "permission denied" || t == "401" || t == BodyUsed
    ensures !Contains(Required, t)
  {
    var m := Required;
    assert t[0] !in m;
    NotContainsFirst(m, t);
  }

  /** A submission is reported as sent only for a complete form the store accepted or may have accepted. */
  lemma SentIff(form: ContactForm, attempt: Attempt, inserted: Message)
    ensures SubmitReply(form, attempt, inserted).Sent? <==>
      && IsComplete(form)
      && match attempt
         case Answered(None) => true
         case Answered(Some(e)) => MessageHas(e, BodyUsed)
         case Threw(f) => MessageHas(f, BodyUsed) && !MessageHas(f, "401") && !Contains(f.text, "401")
  {
    if !IsComplete(form) {
      IncompleteFormRefused(form, attempt, inserted);
    }
  }

  /** A clean insert reports exactly the stored row. */
  lemma CleanInsertReportsRow(form: ContactForm, inserted: Message)
    requires IsComplete(form)
    ensures SubmitReply(form, Answered(None), inserted) == Sent(Some([inserted]), None)
  {
  }

  /** Whitespace-only fields pass validation (it looks at the untrimmed text) and are stored as ''. */
  lemma BlankFieldsAccepted(f: ContactForm, inserted: Message)
    requires f.name != [] && f.email != [] && f.subject != [] && f.message != []
    requires AllSpace(f.name) && AllSpace(f.email) && AllSpace(f.subject) && AllSpace(f.message)
    ensures IsComplete(f)
    ensures SubmitReply(f, Answered(None), inserted).Sent?
    ensures TrimmedRecord(f) == ContactForm("", "", "", "")
  {
    TrimEmptyIffAllSpace(f.name);
    TrimEmptyIffAllSpace(f.email);
    TrimEmptyIffAllSpace(f.subject);
    TrimEmptyIffAllSpace(f.message);
  }

  /** When the store replies with a 401-style error, the form is reported as not configured. */
  lemma UnauthorizedReplyRefused(form: ContactForm, e: Fault, inserted: Message)
    requires IsComplete(form)
    requires !MessageHas(e, BodyUsed)
    requires e.code == Some("PGRST301") || e.status == Some(401) || MessageHas(e, "401")
    ensures SubmitReply(form, Answered(Some(e)), inserted) == Refused(NotConfigured)
  {
  }

  // ---------------------------------------------------------------- table requests

  /** `update(v).eq('id', id)`: the row with that id, if any, becomes `v`; an absent id matches nothing. */
  function UpdateWhereId<V>(t: map<int, V>, id: Option<int>, v: V): (u: map<int, V>)
    ensures u.Keys == t.Keys
    ensures forall k :: k in t && id != Some(k) ==> u[k] == t[k]
    ensures id.Some? && id.value in t ==> u[id.value] == v
  {
    if id.Some? && id.value in t then t[id.value := v] else t
  }

  /** `delete().eq('id', id)`: exactly the row with that id goes; the others stay as they were. */
  function DeleteWhereId<V>(t: map<int, V>, id: int): (u: map<int, V>)
    ensures u.Keys == t.Keys - {id}
    ensures forall k :: k in u ==> u[k] == t[k]
  {
    t - {id}
  }

  /**
   * `update({[section]: data}).eq('id', PortfolioId)` on `portfolio_data`: only the column of that
   * section of the fixed row changes, and no row is ever added.
   */
  function UpdateSection(t: map<string, Row>, section: Section, data: JsValue): (u: map<string, Row>)
    ensures u.Keys == t.Keys
    ensures forall id :: id in t && id != PortfolioId ==> u[id] == t[id]
    ensures PortfolioId in t ==> u[PortfolioId].Keys == t[PortfolioId].Keys + {Column(section)}
    ensures PortfolioId in t ==> u[PortfolioId][Column(section)] == data
    ensures PortfolioId in t ==>
      forall c :: c in t[PortfolioId] && c != Column(section) ==> u[PortfolioId][c] == t[PortfolioId][c]
  {
    if PortfolioId in t then t[PortfolioId := t[PortfolioId][Column(section) := data]] else t
  }

  /** Round trip: after writing a section of the fixed row, reading that column gives the value written. */
  lemma SectionWriteRead(t: map<string, Row>, section: Section, data: JsValue, other: Section)
    requires PortfolioId in t
    ensures Cell(UpdateSection(t, section, data)[PortfolioId], Column(section)) == data
    ensures other != section ==>
      Cell(UpdateSection(t, section, data)[PortfolioId], Column(other)) == Cell(t[PortfolioId], Column(other))
  {
  }

  /** The newest-first order of `order('created_at', { ascending: false })`. */
  predicate NewestFirst(ms: seq<Message>) {
    forall i, j :: 0 <= i < j < |ms| ==> ms[j].createdAt <= ms[i].createdAt
  }

  /** `ms` lists the rows of `t`, each exactly once. */
  predicate Lists(ms: seq<Message>, t: map<int, Message>) {
    && (forall i :: 0 <= i < |ms| ==> ms[i].id in t && t[ms[i].id] == ms[i])
    && (forall i, j :: 0 <= i < j < |ms| ==> ms[i].id != ms[j].id)
    && (forall k :: k in t ==> t[k] in ms)
  }

  /** Among finitely many messages one was created last. */
  lemma NewestExists(left: set<int>, t: map<int, Message>) returns (k: int)
    requires left != {} && left <= t.Keys
    ensures k in left && forall j :: j in left ==> t[j].createdAt <= t[k].createdAt
  {
    if forall z :: z !in left {
      assert false;
    }
    var x :| x in left;
    if left == {x} {
      k := x;
    } else {
      var y := NewestExists(left - {x}, t);
      k := if t[x].createdAt <= t[y].createdAt then y else x;
    }
  }

  /** The store: four tables and the counter it draws new ids from. */
  class Store {
    var portfolio: map<string, Row>
    var projects: map<int, ProjectData>
    var skills: map<int, SkillData>
    var messages: map<int, Message>
    var nextId: int

    /** Ids are keys, and every id in use is below the counter. */
    ghost predicate Valid()
      reads this
    {
      && (forall k :: k in messages ==> messages[k].id == k && k < nextId)
      && (forall k :: k in projects ==> k < nextId)
      && (forall k :: k in skills ==> k < nextId)
    }

    /** A store seeded with the given portfolio rows and nothing else. */
    constructor (portfolio: map<string, Row>)
      ensures Valid()
      ensures this.portfolio == portfolio
      ensures projects == map[] && skills == map[] && messages == map[]
    {
      this.portfolio := portfolio;
      projects, skills, messages := map[], map[], map[];
      nextId := 1;
    }

    /** `submitContactForm`: validate, trim, insert; the row gets a fresh id and the time `now`. */
    method SubmitContactForm(form: ContactForm, attempt: Attempt, now: int) returns (r: ContactReply)
      requires Valid()
      modifies this
      ensures Valid()
      ensures r == SubmitReply(form, attempt, StoredRow(form, old(nextId), now))
      ensures IsComplete(form) && attempt == Answered(None) ==>
        && old(nextId) !in old(messages)
        && messages == old(messages)[old(nextId) := StoredRow(form, old(nextId), now)]
        && nextId == old(nextId) + 1
      ensures !(IsComplete(form) && attempt == Answered(None)) ==>
        messages == old(messages) && nextId == old(nextId)
      ensures portfolio == old(portfolio) && projects == old(projects) && skills == old(skills)
    {
      var row := StoredRow(form, nextId, now);
      if IsComplete(form) && attempt == Answered(None) {
        messages := messages[nextId := row];
        nextId := nextId + 1;
      }
      r := SubmitReply(form, attempt, row);
    }

    /** `getContactMessages`: every message once, newest first, or the error. */
    method GetContactMessages(fault: Option<Fault>) returns (r: Reply<seq<Message>>)
      requires Valid()
      ensures fault.Some? ==> r == Err(fault.value.message)
      ensures fault.None? ==> r.Ok? && Lists(r.data, messages) && NewestFirst(r.data)
    {
      if fault.Some? {
        return Err(fault.value.message);
      }
      var left := messages.Keys;
      var out: seq<Message> := [];
      while left != {}
        invariant left <= messages.Keys
        invariant forall i :: 0 <= i < |out| ==> out[i].id in messages && out[i].id !in left && messages[out[i].id] == out[i]
        invariant forall i, j :: 0 <= i < j < |out| ==> out[i].id != out[j].id
        invariant forall k :: k in messages && k !in left ==> messages[k] in out
        invariant NewestFirst(out)
        invariant forall i, k :: 0 <= i < |out| && k in left ==> messages[k].createdAt <= out[i].createdAt
        decreases left
      {
        ghost var newest := NewestExists(left, messages);
        var k :| k in left && forall j :: j in left ==> messages[j].createdAt <= messages[k].createdAt;
        out := out + [messages[k]];
        left := left - {k};
      }
      r := Ok(out);
    }

    /** `deleteContactMessage(id)` */
    method DeleteContactMessage(id: int, fault: Option<Fault>) returns (r: Reply<()>)
      requires Valid()
      modifies this
      ensures Valid()
      ensures r == ReplyTo(fault, ())
      ensures messages == if fault.None? then DeleteWhereId(old(messages), id) else old(messages)
      ensures portfolio == old(portfolio) && projects == old(projects) && skills == old(skills)
      ensures nextId == old(nextId)
    {
      if fault.None? {
        messages := DeleteWhereId(messages, id);
      }
      r := ReplyTo(fault, ());
    }

    /** `updatePortfolioSection(section, data)` */
    method UpdatePortfolioSection(section: Section, data: JsValue, fault: Option<Fault>) returns (r: Reply<()>)
      requires Valid()
      modifies this
      ensures Valid()
      ensures r == ReplyTo(fault, ())
      ensures portfolio == if fault.None? then UpdateSection(old(portfolio), section, data) else old(portfolio)
      ensures projects == old(projects) && skills == old(skills) && messages == old(messages)
      ensures nextId == old(nextId)
    {
      if fault.None? {
        portfolio := UpdateSection(portfolio, section, data);
      }
      r := ReplyTo(fault, ());
    }

    /** `updateProject(id, data)`; `id` is `None` when the draft has no id. */
    method UpdateProject(id: Option<int>, data: ProjectData, fault: Option<Fault>) returns (r: Reply<()>)
      requires Valid()
      modifies this
      ensures Valid()
      ensures r == ReplyTo(fault, ())
      ensures projects == if fault.None? then UpdateWhereId(old(projects), id, data) else old(projects)
      ensures portfolio == old(portfolio) && skills == old(skills) && messages == old(messages)
      ensures nextId == old(nextId)
    {
      if fault.None? {
        projects := UpdateWhereId(projects, id, data);
      }
      r := ReplyTo(fault, ());
    }

    /** `createProject(data)`: the store assigns a fresh id and returns the inserted row. */
    method CreateProject(data: ProjectData, fault: Option<Fault>) returns (r: Reply<seq<Project>>)
      requires Valid()
      modifies this
      ensures Valid()
      ensures r == ReplyTo(fault, [Project(old(nextId), data)])
      ensures fault.None? ==> old(nextId) !in old(projects) && projects == old(projects)[old(nextId) := data]
      ensures fault.None? ==> nextId == old(nextId) + 1
      ensures fault.Some? ==> projects == old(projects) && nextId == old(nextId)
      ensures portfolio == old(portfolio) && skills == old(skills) && messages == old(messages)
    {
      r := ReplyTo(fault, [Project(nextId, data)]);
      if fault.None? {
        projects := projects[nextId := data];
        nextId := nextId + 1;
      }
    }

    /** `deleteProject(id)` */
    method DeleteProject(id: int, fault: Option<Fault>) returns (r: Reply<()>)
      requires Valid()
      modifies this
      ensures Valid()
      ensures r == ReplyTo(fault, ())
      ensures projects == if fault.None? then DeleteWhereId(old(projects), id) else old(projects)
      ensures portfolio == old(portfolio) && skills == old(skills) && messages == old(messages)
      ensures nextId == old(nextId)
    {
      if fault.None? {
        projects := DeleteWhereId(projects, id);
      }
      r := ReplyTo(fault, ());
    }

    /** `updateSkill(id, data)`; `id` is `None` when the draft has no id. */
    method UpdateSkill(id: Option<int>, data: SkillData, fault: Option<Fault>) returns (r: Reply<()>)
      requires Valid()
      modifies this
      ensures Valid()
      ensures r == ReplyTo(fault, ())
      ensures skills == if fault.None? then UpdateWhereId(old(skills), id, data) else old(skills)
      ensures portfolio == old(portfolio) && projects == old(projects) && messages == old(messages)
      ensures nextId == old(nextId)
    {
      if fault.None? {
        skills := UpdateWhereId(skills, id, data);
      }
      r := ReplyTo(fault, ());
    }

    /** `createSkill(data)`: the store assigns a fresh id and returns the inserted row. */
    method CreateSkill(data: SkillData, fault: Option<Fault>) returns (r: Reply<seq<Skill>>)
      requires Valid()
      modifies this
      ensures Valid()
      ensures r == ReplyTo(fault, [Skill(old(nextId), data)])
      ensures fault.None? ==> old(nextId) !in old(skills) && skills == old(skills)[old(nextId) := data]
      ensures fault.None? ==> nextId == old(nextId) + 1
      ensures fault.Some? ==> skills == old(skills) && nextId == old(nextId)
      ensures portfolio == old(portfolio) && projects == old(projects) && messages == old(messages)
    {
      r := ReplyTo(fault, [Skill(nextId, data)]);
      if fault.None? {
        skills := skills[nextId := data];
        nextId := nextId + 1;
      }
    }

    /** `deleteSkill(id)` */
    method DeleteSkill(id: int, fault: Option<Fault>) returns (r: Reply<()>)
      requires Valid()
      modifies this
      ensures Valid()
      ensures r == ReplyTo(fault, ())
      ensures skills == if fault.None? then DeleteWhereId(old(skills), id) else old(skills)
      ensures portfolio == old(portfolio) && projects == old(projects) && messages == old(messages)
      ensures nextId == old(nextId)
    {
      if fault.None? {
        skills := DeleteWhereId(skills, id);
      }
      r := ReplyTo(fault, ());
    }
  }
}

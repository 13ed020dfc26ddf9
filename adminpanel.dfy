/**
 * The admin panel: password session, the message inbox with search and delete,
 * the four section forms, and the project and skill editors.
 */
module AdminPanel {
  import opened Options
  import opened JsText
  import opened JsValues
  import opened Seqs
  import opened Content
  import opened ContentService
  import opened PortfolioProvider

  // ---------------------------------------------------------------- password and session

  const DefaultPassword: string := "admin123"

  /** The value the session flag must have, exactly, for a reload to restore the session. */
  const SessionFlag: string := "true"

  /** `REACT_APP_ADMIN_PASSWORD || 'admin123'`: an unset or empty setting falls back to the default. */
  function AdminPassword(env: Option<string>): (p: string)
    ensures p != []
    ensures env.Some? && env.value != [] ==> p == env.value
    ensures env.None? || env.value == [] ==> p == DefaultPassword
  {
    if env.Some? && env.value != [] then env.value else DefaultPassword
  }

  /** A stored flag restores the session only when it is exactly `'true'`. */
  predicate RestoresSession(stored: Option<string>) {
    stored == Some(SessionFlag)
  }

  // ---------------------------------------------------------------- the technologies field

  predicate NonBlank(t: string) {
    t != []
  }

  /** `.map(t => t.trim()).filter(t => t)` over the pieces of a split, one piece at a time. */
  function KeepEntries(pieces: seq<string>): (r: seq<string>)
    ensures forall i :: 0 <= i < |r| ==> r[i] != [] && IsTrimmed(r[i])
  {
    if pieces == [] then []
    else
      var t := Trim(pieces[0]);
      (if t != [] then [t] else []) + KeepEntries(pieces[1..])
  }

  /** The one-pass form is the component's `map` followed by `filter`. */
  lemma {:induction false} KeepEntriesIsMapFilter(pieces: seq<string>)
    ensures KeepEntries(pieces) == Filter(Map(pieces, Trim), NonBlank)
  {
    if pieces != [] {
      KeepEntriesIsMapFilter(pieces[1..]);
      var m := Map(pieces, Trim);
      assert m[1..] == Map(pieces[1..], Trim);
    }
  }

  /** Pieces without a separator stay without it. */
  lemma {:induction false} KeepEntriesSepFree(pieces: seq<string>, sep: char)
    requires forall i :: 0 <= i < |pieces| ==> sep !in pieces[i]
    ensures forall i :: 0 <= i < |KeepEntries(pieces)| ==> sep !in KeepEntries(pieces)[i]
  {
    if pieces != [] {
      assert forall i :: 0 <= i < |pieces[1..]| ==> pieces[1..][i] == pieces[i + 1];
      KeepEntriesSepFree(pieces[1..], sep);
      TrimKeepsAbsent(pieces[0], sep);
    }
  }

  /** `text.split(',').map(t => t.trim()).filter(t => t)` */
  function ParseTechnologies(text: string): (r: seq<string>)
    ensures forall i :: 0 <= i < |r| ==> IsEntry(r[i])
  {
    var pieces := Split(text, ',');
    KeepEntriesSepFree(pieces, ',');
    KeepEntries(pieces)
  }

  /** `technologies.join(', ')`, how a stored list is shown in the form. */
  function TechnologiesText(xs: seq<string>): string {
    Join(xs, ", ")
  }

  /** An entry the tokenizer gives back unchanged: non-empty, trimmed, without a comma. */
  predicate IsEntry(t: string) {
    t != [] && IsTrimmed(t) && ',' !in t
  }

  predicate AreEntries(xs: seq<string>) {
    forall i :: 0 <= i < |xs| ==> IsEntry(xs[i])
  }

  /** One piece in front: it contributes its trimmed form when that is not empty. */
  lemma KeepEntriesCons(p: string, rest: seq<string>)
    ensures KeepEntries([p] + rest) == (if Trim(p) != [] then [Trim(p)] else []) + KeepEntries(rest)
  {
    assert ([p] + rest)[1..] == rest;
  }

  /** The pieces of `a, , b,  `: the two entries, with the blanks that follow each comma. */
  lemma SplitWithBlanks(a: string, b: string)
    requires IsEntry(a) && IsEntry(b)
    ensures Split(a + ", , " + b + ",  ", ',') == [a, " ", [' '] + b, "  "]
  {
    var last := ([' '] + b) + [','] + "  ";
    var rest := " " + [','] + last;
    assert a + ", , " + b + ",  " == a + [','] + rest;
    assert ',' !in [' '] + b;
    SplitAfterFirst(a, rest, ',');
    SplitAfterFirst(" ", last, ',');
    SplitAfterFirst([' '] + b, "  ", ',');
    SplitSepFree("  ", ',');
  }

  /** The last two pieces: `" b"` loses its blank and `"  "` vanishes. */
  lemma KeepBlankTail(b: string)
    requires IsEntry(b)
    ensures KeepEntries([[' '] + b, "  "]) == [b]
  {
    var last: seq<string> := ["  "];
    assert [[' '] + b, "  "] == [[' '] + b] + last;
    KeepEntriesBlank("  ", []);
    assert [] + last == last;
    TrimLeadingBlank(b);
    KeepEntriesKeep([' '] + b, last);
  }

  /** Blank pieces vanish and the others lose their blanks: `a, , b,  ` gives `[a, b]`. */
  lemma BlankPiecesDropped(a: string, b: string)
    requires IsEntry(a) && IsEntry(b)
    ensures ParseTechnologies(a + ", , " + b + ",  ") == [a, b]
  {
    SplitWithBlanks(a, b);
    var second: seq<string> := [" ", [' '] + b, "  "];
    assert [a, " ", [' '] + b, "  "] == [a] + second;
    KeepBlankRest(b);
    TrimTrimmed(a);
    KeepEntriesKeep(a, second);
  }

  /** The pieces after the first: the lone blank vanishes, then the tail as in `KeepBlankTail`. */
  lemma KeepBlankRest(b: string)
    requires IsEntry(b)
    ensures KeepEntries([" ", [' '] + b, "  "]) == [b]
  {
    var third: seq<string> := [[' '] + b, "  "];
    assert [" ", [' '] + b, "  "] == [" "] + third;
    KeepBlankTail(b);
    KeepEntriesBlank(" ", third);
  }

  /** The first piece of the joined text: an entry after an optional blank, which `trim` removes. */
  lemma FirstPiece(w: string, x: string)
    requires w == [] || w == [' ']
    requires IsEntry(x)
    ensures ',' !in w + x && Trim(w + x) == x
  {
    if w == [] {
      assert w + x == x;
      TrimTrimmed(x);
    } else {
      TrimLeadingBlank(x);
    }
  }

  /** A piece that is all white space contributes nothing. */
  lemma KeepEntriesBlank(b: string, rest: seq<string>)
    requires AllSpace(b)
    ensures KeepEntries([b] + rest) == KeepEntries(rest)
  {
    TrimEmptyIffAllSpace(b);
    KeepEntriesCons(b, rest);
    assert [] + KeepEntries(rest) == KeepEntries(rest);
  }

  /** A piece that `trim` leaves non-empty contributes its trimmed form. */
  lemma KeepEntriesKeep(p: string, rest: seq<string>)
    requires Trim(p) != []
    ensures KeepEntries([p] + rest) == [Trim(p)] + KeepEntries(rest)
  {
    KeepEntriesCons(p, rest);
  }

  /** The text of no entries, an optional blank, parses to nothing. */
  lemma ParseBlank(w: string)
    requires w == [] || w == [' ']
    ensures KeepEntries(Split(w, ',')) == []
  {
    SplitSepFree(w, ',');
    KeepEntriesBlank(w, []);
  }

  /** The text of one entry, after an optional blank, parses to that entry. */
  lemma ParseSingle(w: string, x: string)
    requires w == [] || w == [' ']
    requires IsEntry(x)
    ensures KeepEntries(Split(w + x, ',')) == [x]
  {
    FirstPiece(w, x);
    SplitSepFree(w + x, ',');
    KeepEntriesKeep(w + x, []);
  }

  /** The step of the round trip: the first entry, then whatever the rest parses to. */
  lemma ParseStep(w: string, xs: seq<string>)
    requires w == [] || w == [' ']
    requires |xs| >= 2 && IsEntry(xs[0])
    requires KeepEntries(Split([' '] + Join(xs[1..], ", "), ',')) == xs[1..]
    ensures KeepEntries(Split(w + Join(xs, ", "), ',')) == xs
  {
    ParseHead(w, xs);
    assert [xs[0]] + xs[1..] == xs;
  }

  /** The first entry of a joined list comes back first, followed by whatever the rest parses to. */
  lemma ParseHead(w: string, xs: seq<string>)
    requires w == [] || w == [' ']
    requires |xs| >= 2 && IsEntry(xs[0])
    ensures KeepEntries(Split(w + Join(xs, ", "), ',')) == [xs[0]] + KeepEntries(Split([' '] + Join(xs[1..], ", "), ','))
  {
    FirstPiece(w, xs[0]);
    SplitJoinedHead(w, xs);
    KeepEntriesKeep(w + xs[0], Split([' '] + Join(xs[1..], ", "), ','));
  }

  /** The pieces of a joined list: the first entry with its optional blank, then the pieces of the rest. */
  lemma SplitJoinedHead(w: string, xs: seq<string>)
    requires |xs| >= 2 && ',' !in w + xs[0]
    ensures Split(w + Join(xs, ", "), ',') == [w + xs[0]] + Split([' '] + Join(xs[1..], ", "), ',')
  {
    JoinAfterFirst(w, xs, ',', ' ');
    SplitAfterFirst(w + xs[0], [' '] + Join(xs[1..], ", "), ',');
  }

  /** The loop of the round trip: after an optional leading blank, the joined entries come back. */
  lemma {:induction false} ParseFrom(w: string, xs: seq<string>)
    requires w == [] || w == [' ']
    requires AreEntries(xs)
    ensures KeepEntries(Split(w + Join(xs, ", "), ',')) == xs
    decreases |xs|
  {
    if xs == [] {
      assert w + Join(xs, ", ") == w;
      ParseBlank(w);
    } else if |xs| == 1 {
      assert w + Join(xs, ", ") == w + xs[0];
      ParseSingle(w, xs[0]);
    } else {
      assert AreEntries(xs[1..]);
      ParseFrom([' '], xs[1..]);
      ParseStep(w, xs);
    }
  }

  /** Round trip: a list of entries shown as `join(', ')` is parsed back to the same list. */
  lemma ParseTechnologiesJoin(xs: seq<string>)
    requires AreEntries(xs)
    ensures ParseTechnologies(TechnologiesText(xs)) == xs
  {
    ParseFrom([], xs);
    assert [] + Join(xs, ", ") == Join(xs, ", ");
  }

  /** Showing a parsed list and parsing it again changes nothing. */
  lemma ParseTechnologiesStable(text: string)
    ensures ParseTechnologies(TechnologiesText(ParseTechnologies(text))) == ParseTechnologies(text)
  {
    ParseTechnologiesJoin(ParseTechnologies(text));
  }

  // ---------------------------------------------------------------- the inbox

  /** One field matches when its lower-cased text includes the lower-cased term. */
  predicate FieldMatches(field: string, term: string) {
    Contains(ToLower(field), ToLower(term))
  }

  /** A message matches when its name, email, subject or text matches. */
  predicate MatchesSearch(m: Message, term: string) {
    FieldMatches(m.name, term) || FieldMatches(m.email, term)
    || FieldMatches(m.subject, term) || FieldMatches(m.message, term)
  }

  function Matching(term: string): Message -> bool {
    (m: Message) => MatchesSearch(m, term)
  }

  /** What the search effect shows: everything for an empty term, otherwise the matches. */
  function SearchResults(ms: seq<Message>, term: string): (r: seq<Message>)
    ensures term == [] ==> r == ms
    ensures term != [] ==> forall i :: 0 <= i < |r| ==> r[i] in ms && MatchesSearch(r[i], term)
    ensures term != [] ==> forall i :: 0 <= i < |ms| && MatchesSearch(ms[i], term) ==> ms[i] in r
  {
    if term == [] then ms else Filter(ms, Matching(term))
  }

  /** The search keeps exactly the matching messages, each as often as it occurs, in inbox order. */
  lemma SearchExact(ms: seq<Message>, term: string, m: Message)
    ensures IsSubsequence(SearchResults(ms, term), ms)
    ensures multiset(SearchResults(ms, term))[m] ==
      if term == [] || MatchesSearch(m, term) then multiset(ms)[m] else 0
  {
    if term == [] {
      FilterKeepsAll(ms, (x: Message) => true);
      FilterIsSubsequence(ms, (x: Message) => true);
    } else {
      FilterIsSubsequence(ms, Matching(term));
      FilterCounts(ms, Matching(term), m);
    }
  }

  /**
   * The empty-term shortcut of the search effect is what filtering with the empty term would give:
   * every text includes `''`, so every message matches it.
   */
  lemma EmptyTermShortcut(ms: seq<Message>)
    ensures SearchResults(ms, []) == Filter(ms, Matching([]))
  {
    forall i | 0 <= i < |ms|
      ensures Matching([])(ms[i])
    {
      ContainsEmpty(ToLower(ms[i].name));
    }
    FilterKeepsAll(ms, Matching([]));
  }

  /** The search does not depend on the case of the term. */
  lemma SearchIgnoresCase(ms: seq<Message>, term: string)
    ensures SearchResults(ms, ToLower(term)) == SearchResults(ms, term)
  {
    ToLowerIdempotent(term);
    if term != [] {
      FilterAgree(ms, Matching(ToLower(term)), Matching(term));
    }
  }

  function IdIsNot(id: int): Message -> bool {
    (m: Message) => m.id != id
  }

  /** `msgs.filter(msg => msg.id !== id)` */
  function WithoutId(ms: seq<Message>, id: int): (r: seq<Message>)
    ensures forall i :: 0 <= i < |r| ==> r[i] in ms && r[i].id != id
    ensures forall i :: 0 <= i < |ms| && ms[i].id != id ==> ms[i] in r
  {
    Filter(ms, IdIsNot(id))
  }

  /** The delete keeps every other message, each as often as it occurs, in inbox order. */
  lemma WithoutIdExact(ms: seq<Message>, id: int, m: Message)
    ensures IsSubsequence(WithoutId(ms, id), ms)
    ensures multiset(WithoutId(ms, id))[m] == if m.id != id then multiset(ms)[m] else 0
  {
    FilterIsSubsequence(ms, IdIsNot(id));
    FilterCounts(ms, IdIsNot(id), m);
  }

  /** A newest-first inbox is still newest first after a delete. */
  lemma {:induction false} WithoutIdNewestFirst(ms: seq<Message>, id: int)
    requires NewestFirst(ms)
    ensures NewestFirst(WithoutId(ms, id))
  {
    if ms != [] {
      var rest := WithoutId(ms[1..], id);
      NewestFirstTail(ms);
      WithoutIdNewestFirst(ms[1..], id);
      if ms[0].id != id {
        assert WithoutId(ms, id) == [ms[0]] + rest;
        NotNewerThanHead(ms, rest);
        NewestFirstCons(ms[0], rest);
      }
    }
  }

  lemma NewestFirstTail(ms: seq<Message>)
    requires ms != [] && NewestFirst(ms)
    ensures NewestFirst(ms[1..])
  {
    forall i, j | 0 <= i < j < |ms| - 1
      ensures ms[1..][j].createdAt <= ms[1..][i].createdAt
    {
      assert ms[1..][i] == ms[i + 1] && ms[1..][j] == ms[j + 1];
    }
  }

  lemma NotNewerThanHead(ms: seq<Message>, rest: seq<Message>)
    requires ms != [] && NewestFirst(ms)
    requires forall j :: 0 <= j < |rest| ==> rest[j] in ms[1..]
    ensures forall j :: 0 <= j < |rest| ==> rest[j].createdAt <= ms[0].createdAt
  {
    forall j | 0 <= j < |rest|
      ensures rest[j].createdAt <= ms[0].createdAt
    {
      var k :| 0 <= k < |ms| - 1 && ms[1..][k] == rest[j];
      assert ms[k + 1] == rest[j];
    }
  }

  lemma NewestFirstCons(m: Message, rest: seq<Message>)
    requires NewestFirst(rest)
    requires forall j :: 0 <= j < |rest| ==> rest[j].createdAt <= m.createdAt
    ensures NewestFirst([m] + rest)
  {
    var r := [m] + rest;
    forall i, j | 0 <= i < j < |r|
      ensures r[j].createdAt <= r[i].createdAt
    {
      assert r[j] == rest[j - 1];
      if i > 0 {
        assert r[i] == rest[i - 1];
      }
    }
  }

  /** Deleting from the full list and searching again agrees with deleting from the search results. */
  lemma DeleteKeepsSearch(ms: seq<Message>, term: string, id: int)
    ensures WithoutId(SearchResults(ms, term), id) == SearchResults(WithoutId(ms, id), term)
  {
    if term != [] {
      FilterCommutes(ms, Matching(term), IdIsNot(id));
    }
  }

  predicate DistinctIds(ms: seq<Message>) {
    forall i, j :: 0 <= i < j < |ms| ==> ms[i].id != ms[j].id
  }

  lemma {:induction false} WithoutIdDistinct(ms: seq<Message>, id: int)
    requires DistinctIds(ms)
    ensures DistinctIds(WithoutId(ms, id))
  {
    if ms != [] {
      var tail := ms[1..];
      assert DistinctIds(tail) by {
        forall i, j | 0 <= i < j < |tail|
          ensures tail[i].id != tail[j].id
        {
          assert tail[i] == ms[i + 1] && tail[j] == ms[j + 1];
        }
      }
      WithoutIdDistinct(tail, id);
      var rest := WithoutId(tail, id);
      forall j | 0 <= j < |rest|
        ensures rest[j].id != ms[0].id
      {
        assert rest[j] in tail;
        var k :| 0 <= k < |tail| && tail[k] == rest[j];
        assert ms[k + 1] == rest[j];
      }
    }
  }

  /**
   * After a confirmed delete the panel's list is exactly the list the store would now return:
   * the message with that id is gone and every other one is still there, once.
   */
  lemma ListsAfterDelete(ms: seq<Message>, t: map<int, Message>, id: int)
    requires Lists(ms, t)
    requires forall k :: k in t ==> t[k].id == k
    ensures Lists(WithoutId(ms, id), DeleteWhereId(t, id))
  {
    WithoutIdDistinct(ms, id);
    var r := WithoutId(ms, id);
    var u := DeleteWhereId(t, id);
    forall i | 0 <= i < |r|
      ensures r[i].id in u && u[r[i].id] == r[i]
    {
      var k :| 0 <= k < |ms| && ms[k] == r[i];
    }
    forall k | k in u
      ensures u[k] in r
    {
      var i :| 0 <= i < |ms| && ms[i] == t[k];
    }
  }

  // ---------------------------------------------------------------- section forms

  /** A section form: field name to the value shown in its input. */
  type Form = map<string, JsValue>

  /** The fields of each section form, in the order of the form. */
  function Fields(s: Section): seq<string> {
    match s
    case Hero => ["name", "title", "description", "cta"]
    case About => ["heading", "bio", "yearsExperience", "projectsCompleted", "clientsSatisfied"]
    case ContactInfo => ["heading", "description", "email", "phone", "location"]
    case Social => ["github", "linkedin", "twitter"]
  }

  /** The initial state of a section form: every field empty. */
  function BlankForm(s: Section): (f: Form)
    ensures IsFormOf(f, s)
    ensures forall k :: k in f ==> f[k] == Str([])
  {
    map k | k in Fields(s) :: Str([])
  }

  /** The four section forms as the panel mounts them. */
  function BlankForms(): (m: map<Section, Form>)
    ensures forall s :: s in m && m[s] == BlankForm(s)
  {
    var m := map[Hero := BlankForm(Hero), About := BlankForm(About),
                 ContactInfo := BlankForm(ContactInfo), Social := BlankForm(Social)];
    BlankFormsCover(m);
    m
  }

  /** The map of the four blank forms has one entry per section. */
  lemma BlankFormsCover(m: map<Section, Form>)
    requires m == map[Hero := BlankForm(Hero), About := BlankForm(About),
                      ContactInfo := BlankForm(ContactInfo), Social := BlankForm(Social)]
    ensures forall s :: s in m && m[s] == BlankForm(s)
  {
    forall s: Section
      ensures s in m && m[s] == BlankForm(s)
    {
      match s {
        case Hero =>
        case About =>
        case ContactInfo =>
        case Social =>
      }
    }
  }

  /** `{ field: source.field || '', ... }` for the section's fields. */
  function Hydrate(s: Section, src: JsValue): (f: Form)
    ensures IsFormOf(f, s)
    ensures forall k :: k in f ==> (Truthy(Prop(src, k)) ==> f[k] == Prop(src, k))
    ensures forall k :: k in f ==> (!Truthy(Prop(src, k)) ==> f[k] == Str([]))
  {
    map k | k in Fields(s) :: OrEmpty(Prop(src, k))
  }

  /** A value that `|| ''` leaves alone: truthy, or the empty string. */
  predicate Settled(v: JsValue) {
    OrEmpty(v) == v
  }

  /** `f` has exactly the fields of section `s`, each holding a settled value. */
  ghost predicate IsFormOf(f: Form, s: Section) {
    && (forall k :: k in f <==> k in Fields(s))
    && (forall k :: k in f ==> Settled(f[k]))
  }

  /** Typing a text into one of the section's fields keeps the form a form of that section. */
  lemma EditKeepsForm(f: Form, s: Section, key: string, value: string)
    requires IsFormOf(f, s) && key in Fields(s)
    ensures IsFormOf(f[key := Str(value)], s)
  {
  }

  /** Hydrating from a saved form gives that form back. */
  lemma HydrateSaved(s: Section, f: Form)
    requires IsFormOf(f, s)
    ensures Hydrate(s, Obj(f)) == f
  {
    var h := Hydrate(s, Obj(f));
    forall k | k in h
      ensures h[k] == f[k]
    {
      assert Prop(Obj(f), k) == f[k];
    }
  }

  /**
   * Round trip through the store and the provider: a form saved into its section is what the
   * next load hydrates back into the form.
   */
  lemma SaveReloadRestoresForm(t: map<string, Row>, s: Section, f: Form, cfg: Config,
                               projects: Answer<seq<Project>>, skills: Answer<seq<Skill>>,
                               parse: string -> Option<JsValue>)
    requires PortfolioId in t && IsFormOf(f, s)
    requires Configured(cfg) && projects.Response? && skills.Response?
    ensures var fetched := Fetch(cfg, ProfileQuery(UpdateSection(t, s, Obj(f))), projects, skills, parse);
      fetched.Loaded? && Hydrate(s, SectionOf(fetched.data, s)) == f
  {
    SavedSectionLoads(t, s, f, s, cfg, projects, skills, parse);
    HydrateSaved(s, f);
  }

  // ---------------------------------------------------------------- project and skill editors

  /** What the editor holds: the id of the row being edited (`None` for a new draft) and its columns. */
  datatype Draft<D> = Draft(id: Option<int>, data: D)

  /** The drafts that the "Add Project" and "Add Skill Group" buttons start. */
  const NewProjectDraft: Draft<ProjectData> := Draft(None, ProjectData("", "", "", [], Some(""), "", false))
  const NewSkillDraft: Draft<SkillData> := Draft(None, SkillData("", []))

  /** Which store call a save makes. */
  datatype SaveCall = UpdateCall(id: Option<int>) | CreateCall

  /** `if (editing) update(editing.id, data) else create(data)` */
  function SaveCallFor<D>(editing: Option<Draft<D>>): (c: SaveCall)
    ensures c.UpdateCall? <==> editing.Some?
    ensures c.UpdateCall? ==> c.id == editing.value.id
  {
    if editing.Some? then UpdateCall(editing.value.id) else CreateCall
  }

  /**
   * A new draft is a non-null object, so saving it goes to update with no id, which matches no
   * row: the store is left as it was and no project or skill group is created.
   */
  lemma NewDraftIsNotCreated(pt: map<int, ProjectData>, pd: ProjectData, st: map<int, SkillData>, sd: SkillData)
    ensures SaveCallFor(Some(NewProjectDraft)) == UpdateCall(None)
    ensures SaveCallFor(Some(NewSkillDraft)) == UpdateCall(None)
    ensures UpdateWhereId(pt, SaveCallFor(Some(NewProjectDraft)).id, pd) == pt
    ensures UpdateWhereId(st, SaveCallFor(Some(NewSkillDraft)).id, sd) == st
  {
  }

  /** The project editor's inputs. */
  datatype ProjectForm = ProjectForm(
    title: string, category: string, description: string,
    technologies: string, image: string, link: string, featured: bool)

  /** The editor's initial inputs for a draft (`image || ''`, technologies joined with `', '`). */
  function ProjectFormFor(p: ProjectData): ProjectForm {
    ProjectForm(p.title, p.category, p.description, TechnologiesText(p.technologies),
                p.image.GetOr([]), p.link, p.featured)
  }

  /** The project the editor submits. */
  function SubmitProjectForm(f: ProjectForm): (p: ProjectData)
    ensures AreEntries(p.technologies) && p.image == Some(f.image)
  {
    ProjectData(f.title, f.category, f.description, ParseTechnologies(f.technologies),
                Some(f.image), f.link, f.featured)
  }

  /**
   * Opening a project in the editor and submitting it unchanged gives the same project when its
   * technologies are entries and it has an image value; otherwise submitting once cleans it and
   * a second round trip changes nothing.
   */
  lemma ProjectFormRoundTrip(p: ProjectData)
    ensures AreEntries(p.technologies) && p.image.Some? ==> SubmitProjectForm(ProjectFormFor(p)) == p
    ensures var q := SubmitProjectForm(ProjectFormFor(p)); SubmitProjectForm(ProjectFormFor(q)) == q
  {
    if AreEntries(p.technologies) {
      ParseTechnologiesJoin(p.technologies);
    }
    ParseTechnologiesStable(TechnologiesText(p.technologies));
  }

  /** The skill editor's inputs. */
  datatype SkillForm = SkillForm(category: string, technologies: string)

  function SkillFormFor(s: SkillData): SkillForm {
    SkillForm(s.category, TechnologiesText(s.technologies))
  }

  /** The skill group the editor submits. */
  function SubmitSkillForm(f: SkillForm): (s: SkillData)
    ensures AreEntries(s.technologies) && s.category == f.category
  {
    SkillData(f.category, ParseTechnologies(f.technologies))
  }

  /** The skill editor's round trip, as for projects. */
  lemma SkillFormRoundTrip(s: SkillData)
    ensures AreEntries(s.technologies) ==> SubmitSkillForm(SkillFormFor(s)) == s
    ensures var q := SubmitSkillForm(SkillFormFor(s)); SubmitSkillForm(SkillFormFor(q)) == q
  {
    if AreEntries(s.technologies) {
      ParseTechnologiesJoin(s.technologies);
    }
    ParseTechnologiesStable(TechnologiesText(s.technologies));
  }

  // ---------------------------------------------------------------- the panel

  /** The panel's state; `storage` is the `admin_authenticated` entry of local storage. */
  class Panel {
    const adminPassword: string
    var isAuthenticated: bool
    var password: string
    var storage: Option<string>
    var messages: seq<Message>
    var filteredMessages: seq<Message>
    var searchTerm: string
    var loading: bool
    var saving: bool
    var editingProject: Option<Draft<ProjectData>>
    var editingSkill: Option<Draft<SkillData>>
    var forms: map<Section, Form>

    /** Every section has its form, with exactly that section's fields. */
    ghost predicate Valid()
      reads this`forms
    {
      forall s :: s in forms && IsFormOf(forms[s], s)
    }

    /** The search effect has run: the shown messages are the search results of the inbox. */
    ghost predicate SearchSettled()
      reads this`messages, this`filteredMessages, this`searchTerm
    {
      filteredMessages == SearchResults(messages, searchTerm)
    }

    /** The panel as mounted, before the session check; `stored` is what local storage holds. */
    constructor (env: Option<string>, stored: Option<string>)
      ensures Valid() && SearchSettled()
      ensures adminPassword == AdminPassword(env) && storage == stored
      ensures !isAuthenticated && password == [] && searchTerm == []
      ensures messages == [] && filteredMessages == []
      ensures loading && !saving
      ensures editingProject == None && editingSkill == None
      ensures forall s :: forms[s] == BlankForm(s)
    {
      adminPassword := AdminPassword(env);
      storage := stored;
      isAuthenticated, password, searchTerm := false, [], [];
      messages, filteredMessages := [], [];
      loading, saving := true, false;
      editingProject, editingSkill := None, None;
      forms := BlankForms();
    }

    /** `fetchMessages`: on success the inbox is the store's messages, newest first; then the search re-runs. */
    method FetchMessages(store: Store, fault: Option<Fault>)
      requires store.Valid() && SearchSettled()
      modifies this`loading, this`messages, this`filteredMessages
      ensures !loading && SearchSettled()
      ensures fault.None? ==> Lists(messages, store.messages) && NewestFirst(messages)
      ensures fault.Some? ==> messages == old(messages) && filteredMessages == old(filteredMessages)
    {
      loading := true;
      var res := store.GetContactMessages(fault);
      if res.Ok? {
        messages := res.data;
        filteredMessages := res.data;
        // the new inbox makes the search effect run again
        filteredMessages := SearchResults(messages, searchTerm);
      }
      loading := false;
    }

    /** The mount effect: a stored flag of exactly `'true'` restores the session and loads the inbox. */
    method RestoreSession(store: Store, fault: Option<Fault>)
      requires store.Valid() && SearchSettled()
      modifies this`isAuthenticated, this`loading, this`messages, this`filteredMessages
      ensures SearchSettled()
      ensures RestoresSession(storage) ==> isAuthenticated && !loading
      ensures RestoresSession(storage) && fault.None? ==> Lists(messages, store.messages) && NewestFirst(messages)
      ensures !RestoresSession(storage) ==>
        isAuthenticated == old(isAuthenticated) && loading == old(loading) && messages == old(messages)
    {
      if storage == Some(SessionFlag) {
        isAuthenticated := true;
        FetchMessages(store, fault);
      }
    }

    /** Typing in the password input. */
    method SetPassword(p: string)
      modifies this`password
      ensures password == p
    {
      password := p;
    }

    /**
     * `handleLogin`: the right password opens the session, stores the flag and loads the inbox;
     * a wrong one clears the input and changes nothing else.
     */
    method Login(store: Store, fault: Option<Fault>)
      requires store.Valid() && SearchSettled()
      modifies this`isAuthenticated, this`storage, this`password, this`loading, this`messages, this`filteredMessages
      ensures SearchSettled()
      ensures old(password) == adminPassword ==>
        isAuthenticated && storage == Some(SessionFlag) && password == old(password) && !loading
      ensures old(password) == adminPassword && fault.None? ==>
        Lists(messages, store.messages) && NewestFirst(messages)
      ensures old(password) != adminPassword ==>
        && password == [] && isAuthenticated == old(isAuthenticated) && storage == old(storage)
        && messages == old(messages) && loading == old(loading)
    {
      if password == adminPassword {
        isAuthenticated := true;
        storage := Some(SessionFlag);
        FetchMessages(store, fault);
      } else {
        password := [];
      }
    }

    /** `handleLogout`: the session ends, the flag is removed and the input cleared. */
    method Logout()
      modifies this`isAuthenticated, this`storage, this`password
      ensures !isAuthenticated && storage == None && password == []
    {
      isAuthenticated := false;
      storage := None;
      password := [];
    }

    /** Typing in the search box; the search effect runs on the new term. */
    method SetSearchTerm(t: string)
      modifies this`searchTerm, this`filteredMessages
      ensures searchTerm == t && SearchSettled()
    {
      searchTerm := t;
      filteredMessages := SearchResults(messages, searchTerm);
    }

    /**
     * `handleDelete`: nothing happens unless confirmed; a successful delete removes the message
     * from both lists, which keeps them consistent with the search.
     */
    method HandleDelete(id: int, confirmed: bool, store: Store, fault: Option<Fault>) returns (r: Option<Reply<()>>)
      requires store.Valid() && SearchSettled()
      modifies this`messages, this`filteredMessages, store
      ensures store.Valid() && SearchSettled()
      ensures !confirmed ==> r == None && unchanged(store)
      ensures !confirmed || fault.Some? ==> messages == old(messages) && filteredMessages == old(filteredMessages)
      ensures confirmed ==> r == Some(ReplyTo(fault, ()))
      ensures confirmed ==>
        store.messages == (if fault.None? then DeleteWhereId(old(store.messages), id) else old(store.messages))
      ensures confirmed && fault.None? ==>
        messages == WithoutId(old(messages), id) && filteredMessages == WithoutId(old(filteredMessages), id)
      ensures store.portfolio == old(store.portfolio) && store.projects == old(store.projects)
      ensures store.skills == old(store.skills) && store.nextId == old(store.nextId)
    {
      if !confirmed {
        return None;
      }
      var res := store.DeleteContactMessage(id, fault);
      if res.Ok? {
        DeleteKeepsSearch(messages, searchTerm, id);
        messages := WithoutId(messages, id);
        filteredMessages := WithoutId(filteredMessages, id);
      }
      r := Some(res);
    }

    /** Typing in a field of a section form. */
    method EditField(s: Section, key: string, value: string)
      requires Valid() && key in Fields(s)
      modifies this`forms
      ensures Valid()
      ensures forms == old(forms)[s := old(forms)[s][key := Str(value)]]
    {
      EditKeepsForm(forms[s], s, key, value);
      forms := forms[s := forms[s][key := Str(value)]];
    }

    /**
     * The hydration effect: once the data has loaded, each section that is present replaces its
     * form by the hydrated one; absent sections keep their forms.
     */
    method HydrateForms(data: Option<Combined>, portfolioLoading: bool)
      requires Valid()
      modifies this`forms
      ensures Valid()
      ensures data.None? || portfolioLoading ==> forms == old(forms)
      ensures data.Some? && !portfolioLoading ==> forall s ::
        forms[s] == if Truthy(SectionOf(data.value, s)) then Hydrate(s, SectionOf(data.value, s)) else old(forms)[s]
    {
      if data.Some? && !portfolioLoading {
        var d := data.value;
        forms := map s | s in forms :: if Truthy(SectionOf(d, s)) then Hydrate(s, SectionOf(d, s)) else forms[s];
      }
    }

    /** `saveHero` / `saveAbout` / `saveContact` / `saveSocial`: the section's form goes to its column. */
    method SaveSection(s: Section, store: Store, fault: Option<Fault>) returns (r: Reply<()>)
      requires Valid() && store.Valid()
      modifies this`saving, store
      ensures !saving && store.Valid()
      ensures r == ReplyTo(fault, ())
      ensures store.portfolio ==
        if fault.None? then UpdateSection(old(store.portfolio), s, Obj(forms[s])) else old(store.portfolio)
      ensures store.projects == old(store.projects) && store.skills == old(store.skills)
      ensures store.messages == old(store.messages) && store.nextId == old(store.nextId)
    {
      saving := true;
      r := store.UpdatePortfolioSection(s, Obj(forms[s]), fault);
      saving := false;
    }

    method AddProject()
      modifies this`editingProject
      ensures editingProject == Some(NewProjectDraft)
    {
      editingProject := Some(NewProjectDraft);
    }

    method EditProject(p: Project)
      modifies this`editingProject
      ensures editingProject == Some(Draft(Some(p.id), p.data))
    {
      editingProject := Some(Draft(Some(p.id), p.data));
    }

    method CancelProject()
      modifies this`editingProject
      ensures editingProject == None
    {
      editingProject := None;
    }

    /**
     * `saveProject`: update when a draft is open, whatever its id, create otherwise; a success
     * closes the editor, and `saving` is cleared either way.
     */
    method SaveProject(data: ProjectData, store: Store, fault: Option<Fault>) returns (r: Reply<()>)
      requires store.Valid()
      modifies this`saving, this`editingProject, store
      ensures !saving && store.Valid()
      ensures r == ReplyTo(fault, ())
      ensures editingProject == if fault.None? then None else old(editingProject)
      ensures SaveCallFor(old(editingProject)).UpdateCall? ==>
        && store.projects == (if fault.None? then UpdateWhereId(old(store.projects), old(editingProject).value.id, data)
                              else old(store.projects))
        && store.nextId == old(store.nextId)
      ensures SaveCallFor(old(editingProject)).CreateCall? && fault.None? ==>
        store.projects == old(store.projects)[old(store.nextId) := data] && store.nextId == old(store.nextId) + 1
      ensures SaveCallFor(old(editingProject)).CreateCall? && fault.Some? ==>
        store.projects == old(store.projects) && store.nextId == old(store.nextId)
      ensures store.portfolio == old(store.portfolio) && store.skills == old(store.skills)
      ensures store.messages == old(store.messages)
    {
      saving := true;
      var call := SaveCallFor(editingProject);
      if call.UpdateCall? {
        r := store.UpdateProject(call.id, data, fault);
      } else {
        var created := store.CreateProject(data, fault);
        r := if created.Ok? then Ok(()) else Err(created.error);
      }
      if r.Ok? {
        editingProject := None;
      }
      saving := false;
    }

    /** `handleDeleteProject`: nothing happens unless confirmed. */
    method HandleDeleteProject(id: int, confirmed: bool, store: Store, fault: Option<Fault>) returns (r: Option<Reply<()>>)
      requires store.Valid()
      modifies store
      ensures store.Valid()
      ensures !confirmed ==> r == None && unchanged(store)
      ensures confirmed ==> r == Some(ReplyTo(fault, ()))
      ensures store.projects == if confirmed && fault.None? then DeleteWhereId(old(store.projects), id) else old(store.projects)
      ensures store.portfolio == old(store.portfolio) && store.skills == old(store.skills)
      ensures store.messages == old(store.messages) && store.nextId == old(store.nextId)
    {
      if !confirmed {
        return None;
      }
      var res := store.DeleteProject(id, fault);
      r := Some(res);
    }

    method AddSkill()
      modifies this`editingSkill
      ensures editingSkill == Some(NewSkillDraft)
    {
      editingSkill := Some(NewSkillDraft);
    }

    method EditSkill(s: Skill)
      modifies this`editingSkill
      ensures editingSkill == Some(Draft(Some(s.id), s.data))
    {
      editingSkill := Some(Draft(Some(s.id), s.data));
    }

    method CancelSkill()
      modifies this`editingSkill
      ensures editingSkill == None
    {
      editingSkill := None;
    }

    /** `saveSkill`, as `saveProject` for skill groups. */
    method SaveSkill(data: SkillData, store: Store, fault: Option<Fault>) returns (r: Reply<()>)
      requires store.Valid()
      modifies this`saving, this`editingSkill, store
      ensures !saving && store.Valid()
      ensures r == ReplyTo(fault, ())
      ensures editingSkill == if fault.None? then None else old(editingSkill)
      ensures SaveCallFor(old(editingSkill)).UpdateCall? ==>
        && store.skills == (if fault.None? then UpdateWhereId(old(store.skills), old(editingSkill).value.id, data)
                            else old(store.skills))
        && store.nextId == old(store.nextId)
      ensures SaveCallFor(old(editingSkill)).CreateCall? && fault.None? ==>
        store.skills == old(store.skills)[old(store.nextId) := data] && store.nextId == old(store.nextId) + 1
      ensures SaveCallFor(old(editingSkill)).CreateCall? && fault.Some? ==>
        store.skills == old(store.skills) && store.nextId == old(store.nextId)
      ensures store.portfolio == old(store.portfolio) && store.projects == old(store.projects)
      ensures store.messages == old(store.messages)
    {
      saving := true;
      var call := SaveCallFor(editingSkill);
      if call.UpdateCall? {
        r := store.UpdateSkill(call.id, data, fault);
      } else {
        var created := store.CreateSkill(data, fault);
        r := if created.Ok? then Ok(()) else Err(created.error);
      }
      if r.Ok? {
        editingSkill := None;
      }
      saving := false;
    }

    /** `handleDeleteSkill`: nothing happens unless confirmed. */
    method HandleDeleteSkill(id: int, confirmed: bool, store: Store, fault: Option<Fault>) returns (r: Option<Reply<()>>)
      requires store.Valid()
      modifies store
      ensures store.Valid()
      ensures !confirmed ==> r == None && unchanged(store)
      ensures confirmed ==> r == Some(ReplyTo(fault, ()))
      ensures store.skills == if confirmed && fault.None? then DeleteWhereId(old(store.skills), id) else old(store.skills)
      ensures store.portfolio == old(store.portfolio) && store.projects == old(store.projects)
      ensures store.messages == old(store.messages) && store.nextId == old(store.nextId)
    {
      if !confirmed {
        return None;
      }
      var res := store.DeleteSkill(id, fault);
      r := Some(res);
    }
  }

  // ---------------------------------------------------------------- sessions across reloads

  /** Logging in with the configured password and reloading the page restores the session. */
  method LoginSurvivesReload(env: Option<string>) returns (restored: bool)
    ensures restored
  {
    var store := new Store(map[]);
    var panel := new Panel(env, None);
    panel.SetPassword(AdminPassword(env));
    panel.Login(store, None);
    var reloaded := new Panel(env, panel.storage);
    reloaded.RestoreSession(store, None);
    restored := reloaded.isAuthenticated;
  }

  /** A wrong password neither opens the session nor leaves anything for a reload to restore. */
  method WrongPasswordIsForgotten(env: Option<string>, attempt: string) returns (authenticated: bool, restored: bool)
    requires attempt != AdminPassword(env)
    ensures !authenticated && !restored
  {
    var store := new Store(map[]);
    var panel := new Panel(env, None);
    panel.SetPassword(attempt);
    panel.Login(store, None);
    authenticated := panel.isAuthenticated;
    var reloaded := new Panel(env, panel.storage);
    reloaded.RestoreSession(store, None);
    restored := reloaded.isAuthenticated;
  }

  /** After a logout a reload does not restore the session. */
  method LogoutEndsSession(env: Option<string>) returns (restored: bool)
    ensures !restored
  {
    var store := new Store(map[]);
    var panel := new Panel(env, None);
    panel.SetPassword(AdminPassword(env));
    panel.Login(store, None);
    panel.Logout();
    var reloaded := new Panel(env, panel.storage);
    reloaded.RestoreSession(store, None);
    restored := reloaded.isAuthenticated;
  }

  /**
   * A project written into a newly added draft is never stored, whatever the store answers; the
   * editor closes exactly when the store answers without an error.
   */
  method AddedProjectIsNotStored(data: ProjectData, fault: Option<Fault>) returns (stored: bool, closed: bool)
    ensures !stored
    ensures closed <==> fault.None?
  {
    var store := new Store(map[]);
    var panel := new Panel(None, None);
    panel.AddProject();
    var r := panel.SaveProject(data, store, fault);
    stored := store.projects != map[];
    closed := panel.editingProject == None;
  }

  /** The same for a newly added skill group. */
  method AddedSkillIsNotStored(data: SkillData, fault: Option<Fault>) returns (stored: bool, closed: bool)
    ensures !stored
    ensures closed <==> fault.None?
  {
    var store := new Store(map[]);
    var panel := new Panel(None, None);
    panel.AddSkill();
    var r := panel.SaveSkill(data, store, fault);
    stored := store.skills != map[];
    closed := panel.editingSkill == None;
  }
}

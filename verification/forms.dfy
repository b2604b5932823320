/** The server actions behind the admin forms and the contact form: each one
    validates the submitted fields against a schema, normalises them, and
    writes one row. A rejected submission reports the failing fields and
    writes nothing; an update or delete of an id that is not stored fails and
    writes nothing. */
module Forms {
  import opened Base
  import opened JsStrings
  import opened Store

  /** A submitted form: field name to value. A field that was not submitted
      is absent, which is what `formData.get` reports as `null`. */
  type FormData = map<string, string>

  /** `formData.get(name)`. */
  function Get(form: FormData, name: string): Option<string> {
    if name in form then Some(form[name]) else None
  }

  /** The value of a field a successful validation has seen. */
  function Val(form: FormData, name: string): string {
    if name in form then form[name] else ""
  }

  /** An optional column: `null` when the field is empty or missing. */
  function Nullable(form: FormData, name: string): (o: Option<string>)
    ensures name in form ==> (o.None? <==> form[name] == "")
    ensures name in form && form[name] != "" ==> o == Some(form[name])
    ensures name !in form ==> o.None?
  {
    OrNull(Val(form, name))
  }

  /** A checkbox is on exactly when its value is the string `on`. */
  predicate Checked(form: FormData, name: string) {
    Get(form, name) == Some("on")
  }

  /** The schema library's e-mail and URL recognisers, which are not modelled
      further. */
  datatype Syntax = Syntax(isEmail: string -> bool, isUrl: string -> bool)

  /** One field's rule in a schema. Every rule rejects a missing field (`null`
      is neither a string nor `undefined`). */
  datatype Rule =
    | Text(min: nat)   // a string of at least `min` UTF-16 code units
    | Email            // an e-mail address
    | EmailOrEmpty     // an e-mail address or ""
    | UrlOrEmpty       // a URL or ""
    | Percent          // `parseInt` of the field is a number in 0..100

  predicate Accepts(rule: Rule, value: Option<string>, syn: Syntax)
    ensures Accepts(rule, value, syn) ==> value.Some?
    ensures rule.Text? && value.Some? ==> (Accepts(rule, value, syn) <==> JsLength(value.value) >= rule.min)
  {
    NullIsNoNumber();
    match rule
    case Text(min) => value.Some? && JsLength(value.value) >= min
    case Email => value.Some? && syn.isEmail(value.value)
    case EmailOrEmpty => value.Some? && (value.value == "" || syn.isEmail(value.value))
    case UrlOrEmpty => value.Some? && (value.value == "" || syn.isUrl(value.value))
    case Percent =>
      // `parseInt(null)` reads the text "null", which holds no digit.
      IsPercent(ParseInt(value.GetOr("null")))
  }

  /** A number was read and it lies in 0..100. */
  predicate IsPercent(n: Option<int>) {
    n.Some? && 0 <= n.value <= 100
  }

  type Schema = seq<(string, Rule)>

  /** `parseInt(null)` reads the text "null" and finds no number. */
  lemma NullIsNoNumber()
    ensures ParseInt("null").None?
  {
    var t := "null";
    assert !IsWhitespace(t[0]);
    assert TrimStart(t) == t;
    assert Unsigned(t) == t;
    assert !HexPrefixed(t) && DigitValue(t[0]) == 23;
  }

  /** The names of the fields whose rule rejects the submitted value. */
  function Errors(schema: Schema, form: FormData, syn: Syntax): (e: set<string>)
    ensures forall k :: 0 <= k < |schema| && !Accepts(schema[k].1, Get(form, schema[k].0), syn) ==> schema[k].0 in e
    ensures forall f :: f in e ==> exists k :: 0 <= k < |schema| && schema[k].0 == f && !Accepts(schema[k].1, Get(form, f), syn)
  {
    set i | 0 <= i < |schema| && !Accepts(schema[i].1, Get(form, schema[i].0), syn) :: schema[i].0
  }

  const ContactSchema: Schema :=
    [("name", Text(2)), ("email", Email), ("message", Text(10))]
  const ProjectSchema: Schema :=
    [("title", Text(1)), ("description", Text(10)), ("imageUrl", Text(0)), ("tags", Text(0)),
     ("link", UrlOrEmpty), ("githubLink", UrlOrEmpty)]
  const SkillSchema: Schema :=
    [("name", Text(1)), ("category", Text(1)), ("proficiency", Percent), ("icon", Text(0))]
  const ExperienceSchema: Schema :=
    [("role", Text(1)), ("company", Text(1)), ("period", Text(1)), ("description", Text(10))]
  const EducationSchema: Schema :=
    [("degree", Text(1)), ("institution", Text(1)), ("period", Text(1)), ("score", Text(1))]
  const AchievementSchema: Schema :=
    [("title", Text(1)), ("description", Text(10)), ("date", Text(1)), ("award", Text(0))]
  const ProfileSchema: Schema :=
    [("bio", Text(10)), ("careerObjective", Text(10)), ("resumeUrl", UrlOrEmpty),
     ("linkedinUrl", UrlOrEmpty), ("githubUrl", UrlOrEmpty), ("twitterUrl", UrlOrEmpty),
     ("email", EmailOrEmpty)]
  const ResearchSchema: Schema :=
    [("title", Text(1)), ("abstract", Text(10)), ("link", UrlOrEmpty), ("publicationDate", Text(1))]
  const CertificationSchema: Schema :=
    [("name", Text(1)), ("issuer", Text(1)), ("date", Text(1)), ("credentialUrl", UrlOrEmpty)]
  const HeroSchema: Schema :=
    [("heading", Text(1)), ("subheading", Text(0)), ("keywords", Text(0))]

  // ---------------------------------------------------------------- lists

  /** Each piece trimmed. */
  function TrimAll(xs: seq<string>): (r: seq<string>)
    ensures |r| == |xs|
    ensures forall i :: 0 <= i < |r| ==> r[i] == Trim(xs[i])
  {
    seq(|xs|, i requires 0 <= i < |xs| => Trim(xs[i]))
  }

  /** A comma-separated list as the tag and keyword fields hold it: split at
      every comma, trim each piece, drop the empty ones. */
  function ParseList(s: string): (r: seq<string>)
    ensures forall i :: 0 <= i < |r| ==> |r[i]| > 0 && IsTrimmed(r[i]) && ',' !in r[i]
  {
    var trimmed := TrimAll(Split(s, ','));
    TrimAllKeepsOut(Split(s, ','), ',');
    FilterKeepsProperty(trimmed, NonEmpty, (x: string) => IsTrimmed(x) && ',' !in x);
    Filter(trimmed, NonEmpty)
  }

  predicate NonEmpty(x: string) {
    |x| > 0
  }

  /** A piece that is not all whitespace. */
  predicate NonBlank(x: string) {
    |Trim(x)| > 0
  }

  /** The list holds, in order, the trimmed pieces that are not blank: every
      such piece is in it and nothing else is. */
  lemma ParseListPieces(s: string)
    ensures ParseList(s) == TrimAll(Filter(Split(s, ','), NonBlank))
    ensures |ParseList(s)| == Count(Split(s, ','), NonBlank)
    ensures forall k :: 0 <= k < |Split(s, ',')| && NonBlank(Split(s, ',')[k]) ==> Trim(Split(s, ',')[k]) in ParseList(s)
  {
    var pieces := Split(s, ',');
    var kept := Filter(pieces, NonBlank);
    TrimThenFilter(pieces);
    FilterLength(pieces, NonBlank);
    FilterMembers(pieces, NonBlank);
    forall k | 0 <= k < |pieces| && NonBlank(pieces[k])
      ensures Trim(pieces[k]) in TrimAll(kept)
    {
      assert pieces[k] in kept;
      TrimAllMember(kept, pieces[k]);
    }
  }

  lemma TrimAllMember(xs: seq<string>, x: string)
    requires x in xs
    ensures Trim(x) in TrimAll(xs)
  {
    var m :| 0 <= m < |xs| && xs[m] == x;
    assert TrimAll(xs)[m] == Trim(x);
  }

  /** Trimming then dropping empty strings is dropping blank strings then
      trimming. */
  lemma TrimThenFilter(xs: seq<string>)
    ensures Filter(TrimAll(xs), NonEmpty) == TrimAll(Filter(xs, NonBlank))
  {
    FilterMap(xs, Trim, NonEmpty, NonBlank);
    TrimAllIsMap(xs);
    TrimAllIsMap(Filter(xs, NonBlank));
  }

  lemma TrimAllIsMap(xs: seq<string>)
    ensures TrimAll(xs) == Map(xs, Trim)
  {
  }


  lemma TrimAllKeepsOut(xs: seq<string>, c: char)
    requires forall i :: 0 <= i < |xs| ==> c !in xs[i]
    ensures forall i :: 0 <= i < |xs| ==> c !in TrimAll(xs)[i]
  {
    forall i | 0 <= i < |xs|
      ensures c !in TrimAll(xs)[i]
    {
      TrimKeepsOut(xs[i], c);
    }
  }

  /** The edit form shows a list joined with ", "; these are the pieces that
      joined text splits into at its commas. */
  function Blanked(xs: seq<string>): (r: seq<string>)
    ensures |r| == |xs|
    ensures forall i :: 0 <= i < |r| ==> r[i] == " " + xs[i]
  {
    seq(|xs|, i requires 0 <= i < |xs| => " " + xs[i])
  }

  lemma {:induction false} SplitJoinedList(tags: seq<string>)
    requires |tags| >= 1
    requires forall i :: 0 <= i < |tags| ==> ',' !in tags[i]
    ensures Split(Join(tags, ", "), ',') == [tags[0]] + Blanked(tags[1..])
  {
    if |tags| == 1 {
      SplitWithoutSeparator(tags[0], ',');
    } else {
      var rest := tags[1..];
      var j := Join(rest, ", ");
      assert Join(tags, ", ") == tags[0] + [','] + (" " + j);
      SplitAfterPiece(tags[0], " " + j, ',');
      SplitJoinedList(rest);
      var r := Split(j, ',');
      assert (" " + j)[1..] == j;
      assert Split(" " + j, ',') == [" " + r[0]] + r[1..];
      assert r[1..] == Blanked(rest[1..]);
      assert [" " + rest[0]] + Blanked(rest[1..]) == Blanked(rest);
    }
  }

  /** Round trip of the edit form: a list of trimmed, non-empty, comma-free
      tags, shown joined with ", " and submitted unchanged, parses back to the
      same list. */
  lemma {:induction false} ParseListOfJoined(tags: seq<string>)
    requires forall i :: 0 <= i < |tags| ==> |tags[i]| > 0 && IsTrimmed(tags[i]) && ',' !in tags[i]
    ensures ParseList(Join(tags, ", ")) == tags
  {
    if |tags| == 0 {
      assert Split("", ',') == [""];
      assert TrimAll([""]) == [""];
    } else {
      SplitJoinedList(tags);
      TrimAllOfJoinedPieces(tags);
      FilterKeepsAll(tags, NonEmpty);
    }
  }

  /** Trimming the pieces of a ", "-joined list recovers the list. */
  lemma {:induction false} TrimAllOfJoinedPieces(tags: seq<string>)
    requires |tags| >= 1
    requires forall i :: 0 <= i < |tags| ==> |tags[i]| > 0 && IsTrimmed(tags[i])
    ensures TrimAll([tags[0]] + Blanked(tags[1..])) == tags
  {
    var pieces := [tags[0]] + Blanked(tags[1..]);
    forall i | 0 <= i < |tags|
      ensures Trim(pieces[i]) == tags[i]
    {
      TrimJoinedPiece(tags, i);
    }
    TrimAllPointwise(pieces, tags);
  }

  lemma TrimAllPointwise(xs: seq<string>, ys: seq<string>)
    requires |xs| == |ys|
    requires forall i :: 0 <= i < |xs| ==> Trim(xs[i]) == ys[i]
    ensures TrimAll(xs) == ys
  {
  }

  lemma TrimJoinedPiece(tags: seq<string>, i: nat)
    requires i < |tags|
    requires |tags[i]| > 0 && IsTrimmed(tags[i])
    ensures Trim(([tags[0]] + Blanked(tags[1..]))[i]) == tags[i]
  {
    var pieces := [tags[0]] + Blanked(tags[1..]);
    if i > 0 {
      assert pieces[i] == " " + tags[i];
      TrimAfterBlank(tags[i]);
    }
  }

  // ---------------------------------------------------------------- records

  /** The project columns a valid submission writes: optional links and
      image become `null` when submitted empty; `isVisible` and `featured`
      come from their checkboxes. */
  function ProjectFields(form: FormData): (p: Project)
    ensures "imageUrl" in form ==> (p.imageUrl.None? <==> form["imageUrl"] == "")
    ensures "link" in form ==> (p.link.None? <==> form["link"] == "")
    ensures "githubLink" in form ==> (p.githubLink.None? <==> form["githubLink"] == "")
    ensures "title" in form ==> p.title == form["title"]
    ensures "description" in form ==> p.description == form["description"]
    ensures "imageUrl" in form && form["imageUrl"] != "" ==> p.imageUrl == Some(form["imageUrl"])
    ensures "link" in form && form["link"] != "" ==> p.link == Some(form["link"])
    ensures "githubLink" in form && form["githubLink"] != "" ==> p.githubLink == Some(form["githubLink"])
    ensures forall i :: 0 <= i < |p.tags| ==> |p.tags[i]| > 0 && IsTrimmed(p.tags[i])
    ensures p.tags == ParseList(Val(form, "tags"))
    ensures p.featured <==> Checked(form, "featured")
    ensures p.isVisible <==> Checked(form, "isVisible")
  {
    var tags := ParseList(Val(form, "tags"));
    assert forall i :: 0 <= i < |tags| ==> |tags[i]| > 0 && IsTrimmed(tags[i]);
    Project(
      title := Val(form, "title"),
      description := Val(form, "description"),
      imageUrl := Nullable(form, "imageUrl"),
      tags := tags,
      link := Nullable(form, "link"),
      githubLink := Nullable(form, "githubLink"),
      featured := Checked(form, "featured"),
      isVisible := Checked(form, "isVisible"))
  }

  /** The skill columns: the proficiency as `parseInt` reads it, the icon
      verbatim, the colour `null` when empty or missing. */
  function SkillFields(form: FormData): (s: Skill)
    ensures s.color.None? <==> Get(form, "color") in {None, Some("")}
    ensures "color" in form && form["color"] != "" ==> s.color == Some(form["color"])
    ensures "name" in form ==> s.name == form["name"]
    ensures "category" in form ==> s.category == form["category"]
    ensures s.isVisible <==> Checked(form, "isVisible")
    ensures "icon" in form ==> s.icon == Some(form["icon"])
    ensures ParseInt(Val(form, "proficiency")).Some? ==> s.proficiency == ParseInt(Val(form, "proficiency")).value
  {
    Skill(
      name := Val(form, "name"),
      category := Val(form, "category"),
      proficiency := ParseInt(Val(form, "proficiency")).GetOr(0),
      icon := Some(Val(form, "icon")),
      color := match Get(form, "color") case None => None case Some(c) => OrNull(c),
      isVisible := Checked(form, "isVisible"))
  }

  function ExperienceFields(form: FormData): Experience {
    Experience(Val(form, "role"), Val(form, "company"), Val(form, "period"), Val(form, "description"))
  }

  function EducationFields(form: FormData): Education {
    Education(Val(form, "degree"), Val(form, "institution"), Val(form, "period"), Val(form, "score"))
  }

  /** The award becomes `null` when submitted empty. */
  function AchievementFields(form: FormData): (a: Achievement)
    ensures "award" in form ==> (a.award.None? <==> form["award"] == "")
    ensures "award" in form && form["award"] != "" ==> a.award == Some(form["award"])
    ensures "title" in form ==> a.title == form["title"]
    ensures "description" in form ==> a.description == form["description"]
    ensures "date" in form ==> a.date == form["date"]
  {
    Achievement(Val(form, "title"), Val(form, "description"), Val(form, "date"), Nullable(form, "award"))
  }

  /** The link is stored as submitted, "" included. */
  function ResearchFields(form: FormData): (r: ResearchPaper)
    ensures "link" in form ==> r.link == Some(form["link"])
  {
    ResearchPaper(Val(form, "title"), Val(form, "abstract"), Some(Val(form, "link")), Val(form, "publicationDate"))
  }

  /** The credential URL is stored as submitted, "" included. */
  function CertificationFields(form: FormData): (c: Certification)
    ensures "credentialUrl" in form ==> c.credentialUrl == Some(form["credentialUrl"])
  {
    Certification(Val(form, "name"), Val(form, "issuer"), Val(form, "date"), Some(Val(form, "credentialUrl")))
  }

  /** Every profile field is stored as submitted, "" included. */
  function ProfileFields(form: FormData): (p: Profile)
    ensures "email" in form ==> p.email == Some(form["email"])
    ensures "resumeUrl" in form ==> p.resumeUrl == Some(form["resumeUrl"])
  {
    Profile(
      bio := Val(form, "bio"),
      careerObjective := Val(form, "careerObjective"),
      resumeUrl := Some(Val(form, "resumeUrl")),
      linkedinUrl := Some(Val(form, "linkedinUrl")),
      githubUrl := Some(Val(form, "githubUrl")),
      twitterUrl := Some(Val(form, "twitterUrl")),
      email := Some(Val(form, "email")))
  }

  /** The hero heading and subheading as submitted, the keywords parsed as a list. */
  function HeroFields(form: FormData): (h: HeroSettings)
    ensures forall i :: 0 <= i < |h.keywords| ==> |h.keywords[i]| > 0 && IsTrimmed(h.keywords[i])
    ensures h.keywords == ParseList(Val(form, "keywords"))
    ensures "heading" in form ==> h.heading == form["heading"]
    ensures "subheading" in form ==> h.subheading == Some(form["subheading"])
  {
    var keywords := ParseList(Val(form, "keywords"));
    assert forall i :: 0 <= i < |keywords| ==> |keywords[i]| > 0 && IsTrimmed(keywords[i]);
    HeroSettings(Val(form, "heading"), Some(Val(form, "subheading")), keywords)
  }

  /** A new contact message. The action writes only name, e-mail and text;
      `read` is false by the schema's column default. */
  function MessageFields(form: FormData): (m: Message)
    ensures !m.read
  {
    Message(Val(form, "name"), Val(form, "email"), Val(form, "message"), false)
  }

  // ---------------------------------------------------------------- actions

  datatype Outcome = Rejected(errors: set<string>) | Saved | Failed

  /** What an action reports and the table it leaves behind. */
  datatype Step<T> = Step(outcome: Outcome, table: T)

  /** A create action: validate, then store a new row at the default position. */
  function CreateOrdered<R>(errors: set<string>, t: Table<Ordered<R>>, freshId: Id, fields: R): (s: Step<Table<Ordered<R>>>)
    requires !HasId(t, freshId)
    ensures s.outcome.Rejected? <==> errors != {}
    ensures s.outcome.Rejected? ==> s.outcome.errors == errors && s.table == t
    ensures !s.outcome.Rejected? ==> s.outcome.Saved? && |s.table| == |t| + 1 && s.table[..|t|] == t
    ensures !s.outcome.Rejected? ==> s.table[|t|] == Row(freshId, Ordered(DefaultOrder, fields))
  {
    if errors != {} then Step(Rejected(errors), t)
    else Step(Saved, Insert(t, freshId, Ordered(DefaultOrder, fields)))
  }

  /** An update action: validate, then overwrite the content columns of the
      row with that id, keeping its position; an unknown id fails. */
  function UpdateOrdered<R>(errors: set<string>, t: Table<Ordered<R>>, id: Id, fields: R): (s: Step<Table<Ordered<R>>>)
    ensures s.outcome.Rejected? <==> errors != {}
    ensures s.outcome.Rejected? ==> s.outcome.errors == errors
    ensures !s.outcome.Saved? ==> s.table == t
    ensures errors == {} ==> (s.outcome.Failed? <==> !HasId(t, id))
    ensures s.outcome.Saved? ==> |s.table| == |t|
    ensures s.outcome.Saved? && UniqueIds(t) ==> forall j :: 0 <= j < |t| ==>
      s.table[j].id == t[j].id && s.table[j].data.order == t[j].data.order &&
      s.table[j].data.fields == (if t[j].id == id then fields else t[j].data.fields)
  {
    if errors != {} then Step(Rejected(errors), t)
    else match Modify(t, id, (o: Ordered<R>) => Ordered(o.order, fields))
      case None => Step(Failed, t)
      case Some(t') => Step(Saved, t')
  }

  /** A delete action: remove the row with that id; an unknown id fails. */
  function Delete<R>(t: Table<R>, id: Id): (s: Step<Table<R>>)
    ensures s.outcome.Saved? || s.outcome.Failed?
    ensures s.outcome.Failed? <==> !HasId(t, id)
    ensures s.outcome.Failed? ==> s.table == t
    ensures s.outcome.Saved? ==> |s.table| == |t| - 1
    ensures s.outcome.Saved? && UniqueIds(t) ==> !HasId(s.table, id)
    ensures s.outcome.Saved? && UniqueIds(t) ==> s.table == Without(t, id) && UniqueIds(s.table)
    ensures forall j :: 0 <= j < |t| && t[j].id != id ==> t[j] in s.table
  {
    match Remove(t, id)
    case None => Step(Failed, t)
    case Some(t') => Step(Saved, t')
  }

  function CreateProject(form: FormData, syn: Syntax, t: Table<Ordered<Project>>, freshId: Id): Step<Table<Ordered<Project>>>
    requires !HasId(t, freshId)
  {
    CreateOrdered(Errors(ProjectSchema, form, syn), t, freshId, ProjectFields(form))
  }

  function UpdateProject(id: Id, form: FormData, syn: Syntax, t: Table<Ordered<Project>>): Step<Table<Ordered<Project>>> {
    UpdateOrdered(Errors(ProjectSchema, form, syn), t, id, ProjectFields(form))
  }

  function CreateSkill(form: FormData, syn: Syntax, t: Table<Ordered<Skill>>, freshId: Id): Step<Table<Ordered<Skill>>>
    requires !HasId(t, freshId)
  {
    CreateOrdered(Errors(SkillSchema, form, syn), t, freshId, SkillFields(form))
  }

  function UpdateSkill(id: Id, form: FormData, syn: Syntax, t: Table<Ordered<Skill>>): Step<Table<Ordered<Skill>>> {
    UpdateOrdered(Errors(SkillSchema, form, syn), t, id, SkillFields(form))
  }

  function CreateExperience(form: FormData, syn: Syntax, t: Table<Ordered<Experience>>, freshId: Id): Step<Table<Ordered<Experience>>>
    requires !HasId(t, freshId)
  {
    CreateOrdered(Errors(ExperienceSchema, form, syn), t, freshId, ExperienceFields(form))
  }

  function UpdateExperience(id: Id, form: FormData, syn: Syntax, t: Table<Ordered<Experience>>): Step<Table<Ordered<Experience>>> {
    UpdateOrdered(Errors(ExperienceSchema, form, syn), t, id, ExperienceFields(form))
  }

  function CreateEducation(form: FormData, syn: Syntax, t: Table<Ordered<Education>>, freshId: Id): Step<Table<Ordered<Education>>>
    requires !HasId(t, freshId)
  {
    CreateOrdered(Errors(EducationSchema, form, syn), t, freshId, EducationFields(form))
  }

  function UpdateEducation(id: Id, form: FormData, syn: Syntax, t: Table<Ordered<Education>>): Step<Table<Ordered<Education>>> {
    UpdateOrdered(Errors(EducationSchema, form, syn), t, id, EducationFields(form))
  }

  function CreateAchievement(form: FormData, syn: Syntax, t: Table<Ordered<Achievement>>, freshId: Id): Step<Table<Ordered<Achievement>>>
    requires !HasId(t, freshId)
  {
    CreateOrdered(Errors(AchievementSchema, form, syn), t, freshId, AchievementFields(form))
  }

  function UpdateAchievement(id: Id, form: FormData, syn: Syntax, t: Table<Ordered<Achievement>>): Step<Table<Ordered<Achievement>>> {
    UpdateOrdered(Errors(AchievementSchema, form, syn), t, id, AchievementFields(form))
  }

  function CreateResearch(form: FormData, syn: Syntax, t: Table<Ordered<ResearchPaper>>, freshId: Id): Step<Table<Ordered<ResearchPaper>>>
    requires !HasId(t, freshId)
  {
    CreateOrdered(Errors(ResearchSchema, form, syn), t, freshId, ResearchFields(form))
  }

  function UpdateResearch(id: Id, form: FormData, syn: Syntax, t: Table<Ordered<ResearchPaper>>): Step<Table<Ordered<ResearchPaper>>> {
    UpdateOrdered(Errors(ResearchSchema, form, syn), t, id, ResearchFields(form))
  }

  function CreateCertification(form: FormData, syn: Syntax, t: Table<Ordered<Certification>>, freshId: Id): Step<Table<Ordered<Certification>>>
    requires !HasId(t, freshId)
  {
    CreateOrdered(Errors(CertificationSchema, form, syn), t, freshId, CertificationFields(form))
  }

  function UpdateCertification(id: Id, form: FormData, syn: Syntax, t: Table<Ordered<Certification>>): Step<Table<Ordered<Certification>>> {
    UpdateOrdered(Errors(CertificationSchema, form, syn), t, id, CertificationFields(form))
  }

  /** The contact form: a valid message is stored unread and then mailed.
      A storage error is only logged, so storing is total here. `mailFails`
      says that mail credentials are configured and sending throws; the
      action then reports failure although the message is already stored. */
  function SendContactMessage(form: FormData, syn: Syntax, t: Table<Message>, freshId: Id, mailFails: bool): (s: Step<Table<Message>>)
    requires !HasId(t, freshId)
    ensures s.outcome.Rejected? <==> Errors(ContactSchema, form, syn) != {}
    ensures s.outcome.Rejected? ==> s.table == t
    ensures s.outcome.Failed? <==> Errors(ContactSchema, form, syn) == {} && mailFails
    ensures !s.outcome.Rejected? ==> "name" in form && "email" in form && "message" in form
    ensures !s.outcome.Rejected? ==> s.table == t + [Row(freshId, Message(form["name"], form["email"], form["message"], false))]
  {
    var errors := Errors(ContactSchema, form, syn);
    if errors != {} then Step(Rejected(errors), t)
    else
      assert !Accepts(ContactSchema[0].1, Get(form, "name"), syn) ==> "name" in errors;
      assert !Accepts(ContactSchema[1].1, Get(form, "email"), syn) ==> "email" in errors;
      assert !Accepts(ContactSchema[2].1, Get(form, "message"), syn) ==> "message" in errors;
      var stored := Insert(t, freshId, MessageFields(form));
      if mailFails then Step(Failed, stored) else Step(Saved, stored)
  }

  /** Marking a message read touches only its `read` flag. */
  function MarkMessageAsRead(t: Table<Message>, id: Id): (s: Step<Table<Message>>)
    ensures s.outcome.Failed? <==> !HasId(t, id)
    ensures s.outcome.Failed? ==> s.table == t
    ensures s.outcome.Saved? && UniqueIds(t) ==> |s.table| == |t| && forall j :: 0 <= j < |t| ==>
      s.table[j].id == t[j].id &&
      s.table[j].data == (if t[j].id == id then t[j].data.(read := true) else t[j].data)
  {
    match Modify(t, id, (m: Message) => m.(read := true))
    case None => Step(Failed, t)
    case Some(t') => Step(Saved, t')
  }

  /** The singleton rule: overwrite the first stored row when there is one,
      otherwise create the only row. */
  function UpsertFirst<R>(t: Table<R>, freshId: Id, r: R): (t': Table<R>)
    ensures |t| > 0 ==> |t'| == |t| && t'[0] == Row(t[0].id, r) && t'[1..] == t[1..]
    ensures |t| == 0 ==> t' == [Row(freshId, r)]
    ensures |t'| > 0 && t'[0].data == r
  {
    if |t| > 0 then t[0 := Row(t[0].id, r)] else [Row(freshId, r)]
  }

  function UpdateProfile(form: FormData, syn: Syntax, t: Table<Profile>, freshId: Id): (s: Step<Table<Profile>>)
    ensures s.outcome.Rejected? <==> Errors(ProfileSchema, form, syn) != {}
    ensures s.outcome.Rejected? ==> s.table == t
    ensures s.outcome.Saved? ==> s.table == UpsertFirst(t, freshId, ProfileFields(form))
  {
    var errors := Errors(ProfileSchema, form, syn);
    if errors != {} then Step(Rejected(errors), t)
    else Step(Saved, UpsertFirst(t, freshId, ProfileFields(form)))
  }

  function UpdateHeroSettings(form: FormData, syn: Syntax, t: Table<HeroSettings>, freshId: Id): (s: Step<Table<HeroSettings>>)
    ensures s.outcome.Rejected? <==> Errors(HeroSchema, form, syn) != {}
    ensures s.outcome.Rejected? ==> s.table == t
    ensures s.outcome.Saved? ==> s.table == UpsertFirst(t, freshId, HeroFields(form))
  {
    var errors := Errors(HeroSchema, form, syn);
    if errors != {} then Step(Rejected(errors), t)
    else Step(Saved, UpsertFirst(t, freshId, HeroFields(form)))
  }

  // ---------------------------------------------------------------- properties

  /** A field whose rule rejects its value is reported. */
  lemma FailingFieldIsReported(schema: Schema, k: nat, form: FormData, syn: Syntax)
    requires k < |schema|
    requires !Accepts(schema[k].1, Get(form, schema[k].0), syn)
    ensures schema[k].0 in Errors(schema, form, syn)
  {
  }

  /** Only fields whose rule rejects their value are reported. */
  lemma ReportedFieldFails(schema: Schema, f: string, form: FormData, syn: Syntax)
    requires f in Errors(schema, form, syn)
    ensures exists k :: 0 <= k < |schema| && schema[k].0 == f && !Accepts(schema[k].1, Get(form, f), syn)
  {
  }

  /** The contact form turns away a name shorter than two characters and a
      message shorter than ten, and stores nothing. */
  lemma ContactRejectsShortInput(form: FormData, syn: Syntax, t: Table<Message>, freshId: Id, mailFails: bool)
    requires !HasId(t, freshId)
    requires "name" in form && "message" in form
    requires JsLength(form["name"]) < 2 || JsLength(form["message"]) < 10
    ensures SendContactMessage(form, syn, t, freshId, mailFails).outcome.Rejected?
    ensures JsLength(form["name"]) < 2 ==> "name" in SendContactMessage(form, syn, t, freshId, mailFails).outcome.errors
    ensures JsLength(form["message"]) < 10 ==> "message" in SendContactMessage(form, syn, t, freshId, mailFails).outcome.errors
    ensures SendContactMessage(form, syn, t, freshId, mailFails).table == t
  {
    if JsLength(form["name"]) < 2 {
      FailingFieldIsReported(ContactSchema, 0, form, syn);
    }
    if JsLength(form["message"]) < 10 {
      FailingFieldIsReported(ContactSchema, 2, form, syn);
    }
  }

  /** A proficiency that reads as a number outside 0..100 is turned away and
      nothing is stored. */
  lemma SkillRejectsProficiencyOutOfRange(form: FormData, syn: Syntax, t: Table<Ordered<Skill>>, freshId: Id)
    requires !HasId(t, freshId)
    requires "proficiency" in form
    requires ParseInt(form["proficiency"]).Some?
    requires ParseInt(form["proficiency"]).value < 0 || ParseInt(form["proficiency"]).value > 100
    ensures CreateSkill(form, syn, t, freshId).outcome.Rejected?
    ensures "proficiency" in CreateSkill(form, syn, t, freshId).outcome.errors
    ensures CreateSkill(form, syn, t, freshId).table == t
  {
    PercentRejects(form["proficiency"], syn);
    assert Get(form, "proficiency") == Some(form["proficiency"]);
    assert SkillSchema[2] == ("proficiency", Percent);
    FailingFieldIsReported(SkillSchema, 2, form, syn);
    CreateWithErrors(Errors(SkillSchema, form, syn), t, freshId, SkillFields(form), "proficiency");
  }

  lemma PercentRejects(v: string, syn: Syntax)
    requires !IsPercent(ParseInt(v))
    ensures !Accepts(Percent, Some(v), syn)
  {
  }

  lemma CreateWithErrors<R>(errors: set<string>, t: Table<Ordered<R>>, freshId: Id, fields: R, f: string)
    requires !HasId(t, freshId) && f in errors
    ensures CreateOrdered(errors, t, freshId, fields).outcome.Rejected?
    ensures f in CreateOrdered(errors, t, freshId, fields).outcome.errors
    ensures CreateOrdered(errors, t, freshId, fields).table == t
  {
  }

  /** The number the skill form submits for a proficiency in 0..100 passes. */
  lemma SkillAcceptsSubmittedProficiency(n: int, syn: Syntax)
    requires 0 <= n <= 100
    ensures Accepts(Percent, Some(IntToString(n)), syn)
  {
    ParseIntOfIntToString(n);
  }

  /** Submitting the same profile twice leaves what the first submission left. */
  lemma UpdateProfileIdempotent(form: FormData, syn: Syntax, t: Table<Profile>, id1: Id, id2: Id)
    ensures var once := UpdateProfile(form, syn, t, id1).table;
            UpdateProfile(form, syn, once, id2).table == once
  {
  }

  /** Submitting the hero settings when a row exists keeps the row count and
      the first row's id; when none exists it creates exactly one row. */
  lemma UpdateHeroSettingsSingleton(form: FormData, syn: Syntax, t: Table<HeroSettings>, freshId: Id)
    requires Errors(HeroSchema, form, syn) == {}
    ensures var t' := UpdateHeroSettings(form, syn, t, freshId).table;
            (|t| > 0 ==> |t'| == |t| && t'[0].id == t[0].id && t'[1..] == t[1..]) &&
            (|t| == 0 ==> |t'| == 1)
  {
  }
}

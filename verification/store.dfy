/** The database as the site sees it through its ORM: one table per entity,
    each a sequence of rows in storage order (the order an unsorted
    `findFirst` scans), every row carrying a string id. Collections that the
    admin can reorder wrap their fields in `Ordered`, so the `order` column is
    kept apart from the content columns. Timestamps are not modelled. */
module Store {
  import opened Base

  type Id = string

  datatype Row<R> = Row(id: Id, data: R)

  type Table<R> = seq<Row<R>>

  /** A record of a reorderable collection: its sort position and its content. */
  datatype Ordered<R> = Ordered(order: int, fields: R)

  /** The `order` a newly created row receives (the column default). */
  const DefaultOrder: int := 0

  datatype Project = Project(
    title: string,
    description: string,
    imageUrl: Option<string>,
    tags: seq<string>,
    link: Option<string>,
    githubLink: Option<string>,
    featured: bool,
    isVisible: bool)

  datatype Skill = Skill(
    name: string,
    category: string,
    proficiency: int,
    icon: Option<string>,
    color: Option<string>,
    isVisible: bool)

  datatype Experience = Experience(role: string, company: string, period: string, description: string)

  datatype Education = Education(degree: string, institution: string, period: string, score: string)

  datatype Achievement = Achievement(title: string, description: string, date: string, award: Option<string>)

  datatype ResearchPaper = ResearchPaper(title: string, abstractText: string, link: Option<string>, publicationDate: string)

  datatype Certification = Certification(name: string, issuer: string, date: string, credentialUrl: Option<string>)

  datatype Message = Message(name: string, email: string, message: string, read: bool)

  datatype Profile = Profile(
    bio: string,
    careerObjective: string,
    resumeUrl: Option<string>,
    linkedinUrl: Option<string>,
    githubUrl: Option<string>,
    twitterUrl: Option<string>,
    email: Option<string>)

  datatype HeroSettings = HeroSettings(heading: string, subheading: Option<string>, keywords: seq<string>)

  /** The whole database: seven reorderable collections, the contact
      messages, and the two singleton tables. */
  datatype Db = Db(
    projects: Table<Ordered<Project>>,
    skills: Table<Ordered<Skill>>,
    experiences: Table<Ordered<Experience>>,
    education: Table<Ordered<Education>>,
    achievements: Table<Ordered<Achievement>>,
    researchPapers: Table<Ordered<ResearchPaper>>,
    certifications: Table<Ordered<Certification>>,
    messages: Table<Message>,
    profiles: Table<Profile>,
    heroSettings: Table<HeroSettings>)

  /** Ids are primary keys: no two rows share one. */
  predicate UniqueIds<R>(t: Table<R>) {
    forall i, j :: 0 <= i < j < |t| ==> t[i].id != t[j].id
  }

  /** Some row has id `id`. */
  predicate HasId<R>(t: Table<R>, id: Id) {
    exists i :: 0 <= i < |t| && t[i].id == id
  }

  /** The position of the first row with id `id`, if any. */
  function IndexOf<R>(t: Table<R>, id: Id): (r: Option<nat>)
    ensures r.None? <==> !HasId(t, id)
    ensures r.Some? ==> r.value < |t| && t[r.value].id == id
    ensures r.Some? ==> forall j :: 0 <= j < r.value ==> t[j].id != id
  {
    if |t| == 0 then None
    else if t[0].id == id then Some(0)
    else match IndexOf(t[1..], id)
      case None => None
      case Some(k) => Some(k + 1)
  }

  /** The position of the first row, in storage order, whose data satisfies
      `p` (an ORM `findFirst` with a `where` filter). */
  function FirstWhere<R>(t: Table<R>, p: R -> bool): (r: Option<nat>)
    ensures r.None? <==> forall j :: 0 <= j < |t| ==> !p(t[j].data)
    ensures r.Some? ==> r.value < |t| && p(t[r.value].data)
    ensures r.Some? ==> forall j :: 0 <= j < r.value ==> !p(t[j].data)
  {
    if |t| == 0 then None
    else if p(t[0].data) then Some(0)
    else match FirstWhere(t[1..], p)
      case None => None
      case Some(k) => Some(k + 1)
  }

  /** A row appended to a table with no match is the first match. */
  lemma {:induction false} FirstWhereAppend<R>(t: Table<R>, row: Row<R>, p: R -> bool)
    requires FirstWhere(t, p).None? && p(row.data)
    ensures FirstWhere(t + [row], p) == Some(|t|)
  {
    if |t| > 0 {
      assert !p(t[0].data);
      assert (t + [row])[1..] == t[1..] + [row];
      FirstWhereAppend(t[1..], row, p);
    }
  }

  /** Overwriting the first match with a row that still matches keeps it the
      first match. */
  lemma {:induction false} FirstWhereOverwrite<R>(t: Table<R>, i: nat, row: Row<R>, p: R -> bool)
    requires FirstWhere(t, p) == Some(i) && p(row.data)
    ensures FirstWhere(t[i := row], p) == Some(i)
  {
    if i > 0 {
      assert !p(t[0].data);
      assert t[i := row][1..] == t[1..][i - 1 := row];
      FirstWhereOverwrite(t[1..], i - 1, row, p);
    }
  }

  /** An ORM `create`: the new row is stored after the existing ones. */
  function Insert<R>(t: Table<R>, id: Id, r: R): (t': Table<R>)
    requires !HasId(t, id)
    ensures |t'| == |t| + 1 && t'[..|t|] == t && t'[|t|] == Row(id, r)
    ensures UniqueIds(t) ==> UniqueIds(t')
  {
    t + [Row(id, r)]
  }

  /** An ORM `update` by id: the row's data becomes `f` of its old data;
      `None` when no row has that id (the ORM throws). */
  function Modify<R>(t: Table<R>, id: Id, f: R -> R): (r: Option<Table<R>>)
    ensures r.None? <==> !HasId(t, id)
    ensures r.Some? ==> |r.value| == |t|
    ensures r.Some? ==> forall j :: 0 <= j < |t| ==> r.value[j].id == t[j].id
    ensures r.Some? && UniqueIds(t) ==> forall j :: 0 <= j < |t| ==>
      r.value[j].data == (if t[j].id == id then f(t[j].data) else t[j].data)
  {
    match IndexOf(t, id)
    case None => None
    case Some(i) => Some(t[i := Row(id, f(t[i].data))])
  }

  /** The rows whose id is not `id`, in storage order. */
  function Without<R>(t: Table<R>, id: Id): Table<R> {
    Filter(t, OtherThan(id))
  }

  function OtherThan<R>(id: Id): Row<R> -> bool {
    (row: Row<R>) => row.id != id
  }

  /** An ORM `delete` by id; `None` when no row has that id (the ORM throws).
      Under unique ids exactly that row goes and the others stay, in order. */
  function Remove<R>(t: Table<R>, id: Id): (r: Option<Table<R>>)
    ensures r.None? <==> !HasId(t, id)
    ensures r.Some? ==> |r.value| == |t| - 1
    ensures r.Some? && UniqueIds(t) ==> !HasId(r.value, id)
    ensures r.Some? ==> forall j :: 0 <= j < |r.value| ==> r.value[j] in t
    ensures r.Some? && UniqueIds(t) ==> r.value == Without(t, id) && UniqueIds(r.value)
    ensures r.Some? ==> forall j :: 0 <= j < |t| && t[j].id != id ==> t[j] in r.value
  {
    match IndexOf(t, id)
    case None => None
    case Some(i) =>
      CutRows(t, i);
      RemoveAt(t, i, id);
      Some(Cut(t, i))
  }

  /** `t` without its row at position `i`. */
  function Cut<R>(t: Table<R>, i: nat): (c: Table<R>)
    requires i < |t|
    ensures |c| == |t| - 1
    ensures forall j :: 0 <= j < |c| ==> c[j] == (if j < i then t[j] else t[j + 1])
  {
    t[..i] + t[i + 1..]
  }

  lemma CutRows<R>(t: Table<R>, i: nat)
    requires i < |t|
    ensures forall j :: 0 <= j < |Cut(t, i)| ==> Cut(t, i)[j] in t
    ensures forall j :: 0 <= j < |t| && j != i ==> t[j] in Cut(t, i)
  {
    var c := Cut(t, i);
    forall j | 0 <= j < |t| && j != i
      ensures t[j] in c
    {
      assert t[j] == c[if j < i then j else j - 1];
    }
  }

  /** Cutting out the only row with id `id` leaves the other rows. */
  lemma RemoveAt<R>(t: Table<R>, i: nat, id: Id)
    requires i < |t| && t[i].id == id
    ensures UniqueIds(t) ==> Cut(t, i) == Without(t, id) && UniqueIds(Cut(t, i)) && !HasId(Cut(t, i), id)
  {
    if UniqueIds(t) {
      var p := OtherThan<R>(id);
      assert forall j :: 0 <= j < |t| && j != i ==> p(t[j]);
      FilterDropsOne(t, i, p);
      CutKeepsUnique(t, i);
      var c := Cut(t, i);
      forall j | 0 <= j < |c|
        ensures c[j].id != id
      {
        assert c[j] == t[if j < i then j else j + 1];
      }
    }
  }

  /** Filtering out exactly one element cuts it out. */
  lemma FilterDropsOne<T>(s: seq<T>, i: nat, p: T -> bool)
    requires i < |s| && !p(s[i])
    requires forall j :: 0 <= j < |s| && j != i ==> p(s[j])
    ensures Filter(s, p) == s[..i] + s[i + 1..]
  {
    var pre, post := s[..i], s[i + 1..];
    assert forall j :: 0 <= j < |pre| ==> pre[j] == s[j];
    assert forall j :: 0 <= j < |post| ==> post[j] == s[i + 1 + j];
    FilterKeepsAll(pre, p);
    FilterKeepsAll(post, p);
    FilterCut(s, i, p);
  }

  lemma FilterCut<T>(s: seq<T>, i: nat, p: T -> bool)
    requires i < |s| && !p(s[i])
    ensures Filter(s, p) == Filter(s[..i], p) + Filter(s[i + 1..], p)
  {
    assert s == s[..i] + ([s[i]] + s[i + 1..]);
    FilterAppend(s[..i], [s[i]] + s[i + 1..], p);
    FilterAppend([s[i]], s[i + 1..], p);
    assert Filter([s[i]], p) == [];
  }

  lemma CutKeepsUnique<R>(t: Table<R>, i: nat)
    requires i < |t| && UniqueIds(t)
    ensures UniqueIds(Cut(t, i))
  {
    var c := Cut(t, i);
    forall j, k | 0 <= j < k < |c|
      ensures c[j].id != c[k].id
    {
      var j' := if j < i then j else j + 1;
      var k' := if k < i then k else k + 1;
      assert c[j] == t[j'] && c[k] == t[k'];
    }
  }
}

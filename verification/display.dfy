/** The public projects section: only visible projects, the first six of
    them until the visitor expands the list, laid out in three columns by
    position. Projects arrive already sorted by `order`. */
module ProjectsSection {
  import opened Base
  import opened Store

  type Card = Row<Ordered<Project>>

  /** How many projects the collapsed section shows. */
  const CollapsedCount: nat := 6

  predicate IsVisible(p: Card) {
    p.data.fields.isVisible
  }

  function VisibleProjects(ps: seq<Card>): seq<Card> {
    Filter(ps, IsVisible)
  }

  /** The projects on screen: every visible one when expanded, otherwise the
      first six visible ones. */
  function Displayed(ps: seq<Card>, expanded: bool): (r: seq<Card>)
    ensures forall i :: 0 <= i < |r| ==> IsVisible(r[i])
    ensures r <= VisibleProjects(ps)
    ensures |r| == if expanded then Count(ps, IsVisible) else Min(CollapsedCount, Count(ps, IsVisible))
  {
    FilterLength(ps, IsVisible);
    var visible := VisibleProjects(ps);
    if expanded then visible else visible[..Min(CollapsedCount, |visible|)]
  }

  /** The "view more" button is rendered when there are more than six visible
      projects. */
  predicate ShowToggle(ps: seq<Card>) {
    |VisibleProjects(ps)| > CollapsedCount
  }

  /** The button is shown exactly when pressing it changes what is shown. */
  lemma ToggleChangesDisplay(ps: seq<Card>)
    ensures ShowToggle(ps) <==> Displayed(ps, false) != Displayed(ps, true)
  {
    FilterLength(ps, IsVisible);
  }

  /** Every third entry of `s`, starting at index `d`: the source's filter
      `index % 3 === colIndex`, walked with the distance `d` to the next
      entry it keeps. */
  function IndexFilter<T>(s: seq<T>, d: nat): seq<T>
    requires d < 3
  {
    if |s| == 0 then []
    else if d == 0 then [s[0]] + IndexFilter(s[1..], 2)
    else IndexFilter(s[1..], d - 1)
  }

  /** Column `c` of the three-column layout. */
  function Column<T>(s: seq<T>, c: nat): (r: seq<T>)
    requires c < 3
    ensures |r| == (|s| + 2 - c) / 3
    ensures forall k :: 0 <= k < |r| ==> r[k] == s[3 * k + c]
  {
    IndexFilterLength(s, c);
    IndexFilterEntries(s, c);
    IndexFilter(s, c)
  }

  lemma {:induction false} IndexFilterLength<T>(s: seq<T>, d: nat)
    requires d < 3
    ensures |IndexFilter(s, d)| == (|s| + 2 - d) / 3
  {
    if |s| > 0 {
      if d == 0 {
        IndexFilterLength(s[1..], 2);
      } else {
        IndexFilterLength(s[1..], d - 1);
      }
    }
  }

  lemma {:induction false} IndexFilterEntries<T>(s: seq<T>, d: nat)
    requires d < 3
    ensures forall k :: 0 <= k < |IndexFilter(s, d)| ==> 3 * k + d < |s| && IndexFilter(s, d)[k] == s[3 * k + d]
  {
    if |s| > 0 {
      var r := IndexFilter(s, d);
      if d == 0 {
        var rest := IndexFilter(s[1..], 2);
        IndexFilterEntries(s[1..], 2);
        assert r == [s[0]] + rest;
        forall k | 0 < k < |r|
          ensures 3 * k < |s| && r[k] == s[3 * k]
        {
          assert r[k] == rest[k - 1] == s[1..][3 * (k - 1) + 2];
        }
      } else {
        var rest := IndexFilter(s[1..], d - 1);
        IndexFilterEntries(s[1..], d - 1);
        assert r == rest;
        forall k | 0 <= k < |r|
          ensures 3 * k + d < |s| && r[k] == s[3 * k + d]
        {
          assert rest[k] == s[1..][3 * k + d - 1];
        }
      }
    }
  }

  /** The three columns partition the list by position: the entry at index
      `i` is entry `i / 3` of column `i % 3`, and the columns hold nothing
      else. */
  lemma ColumnsPartition<T>(s: seq<T>)
    ensures |Column(s, 0)| + |Column(s, 1)| + |Column(s, 2)| == |s|
    ensures forall i :: 0 <= i < |s| ==> i / 3 < |Column(s, i % 3)| && Column(s, i % 3)[i / 3] == s[i]
  {
    forall i | 0 <= i < |s|
      ensures i / 3 < |Column(s, i % 3)| && Column(s, i % 3)[i / 3] == s[i]
    {
      assert 3 * (i / 3) + i % 3 == i;
    }
  }
}

/** The public skills section: the colour tier of a proficiency, and the first
    eight skills (hidden ones dropped after truncation) until expanded. */
module SkillsSection {
  import opened Base
  import opened Store

  type Card = Row<Ordered<Skill>>

  const CollapsedCount: nat := 8

  const Expert: string := "#22c55e"
  const Advanced: string := "#00d9ff"
  const Intermediate: string := "#bc13fe"
  const Learning: string := "#ff0055"

  /** The ring colour of a proficiency; an absent or zero proficiency counts
      as 0 (`proficiency || 0`). */
  function ColorOf(proficiency: Option<int>): (color: string)
    ensures var p := proficiency.GetOr(0);
      && (color == Expert <==> p >= 90)
      && (color == Advanced <==> 80 <= p < 90)
      && (color == Intermediate <==> 60 <= p < 80)
      && (color == Learning <==> p < 60)
  {
    // `proficiency || 0`: a zero is falsy and falls back to the same zero.
    var p := match proficiency case Some(n) => n case None => 0;
    if p >= 90 then Expert
    else if p >= 80 then Advanced
    else if p >= 60 then Intermediate
    else Learning
  }

  /** The rank of a tier colour, lowest first. */
  function Rank(color: string): nat {
    if color == Expert then 3
    else if color == Advanced then 2
    else if color == Intermediate then 1
    else 0
  }

  /** A missing or zero proficiency is in the lowest tier. */
  lemma MissingIsLowest()
    ensures ColorOf(None) == Learning && ColorOf(Some(0)) == Learning
  {
  }

  /** Raising the proficiency never lowers the tier. */
  lemma ColorMonotone(p: int, q: int)
    requires p <= q
    ensures Rank(ColorOf(Some(p))) <= Rank(ColorOf(Some(q)))
  {
  }

  predicate IsShown(s: Card) {
    s.data.fields.isVisible
  }

  /** The skills on screen: all visible ones when expanded, otherwise the
      visible ones among the first eight. */
  function Displayed(skills: seq<Card>, expanded: bool): (r: seq<Card>)
    ensures forall i :: 0 <= i < |r| ==> IsShown(r[i])
    ensures expanded ==> forall i :: 0 <= i < |skills| && IsShown(skills[i]) ==> skills[i] in r
    ensures !expanded ==> |r| <= CollapsedCount
    ensures !expanded ==> forall i :: 0 <= i < |r| ==> r[i] in skills[..Min(CollapsedCount, |skills|)]
    ensures !expanded ==> forall i :: 0 <= i < Min(CollapsedCount, |skills|) && IsShown(skills[i]) ==> skills[i] in r
    ensures IsSubsequence(r, skills)
  {
    var k := if expanded then |skills| else Min(CollapsedCount, |skills|);
    var shown := skills[..k];
    FilterMembers(shown, IsShown);
    FilterIsSubsequence(shown, IsShown);
    SubsequenceOfPrefix(Filter(shown, IsShown), skills, k);
    assert forall i :: 0 <= i < k ==> shown[i] == skills[i];
    assert expanded ==> shown == skills;
    Filter(shown, IsShown)
  }

  /** The "view all" button counts hidden skills too. */
  predicate ShowToggle(skills: seq<Card>) {
    |skills| > CollapsedCount
  }

  /** Without the button the collapsed section already shows every visible
      skill. */
  lemma NoToggleShowsAll(skills: seq<Card>)
    requires !ShowToggle(skills)
    ensures Displayed(skills, false) == Displayed(skills, true)
  {
    assert skills[..Min(CollapsedCount, |skills|)] == skills;
  }

  /** Truncating first can hide a visible skill behind hidden ones: when one
      of the first eight skills is hidden and the list is long enough to
      offer the button, the collapsed view shows fewer than eight skills
      however many of the others are visible, while the expanded view shows
      every visible one. */
  lemma HiddenSkillsShortenCollapsedView(skills: seq<Card>, k: nat)
    requires ShowToggle(skills)
    requires k < CollapsedCount && !IsShown(skills[k])
    ensures |Displayed(skills, false)| < CollapsedCount
    ensures |Displayed(skills, true)| == Count(skills, IsShown)
  {
    var shown := skills[..CollapsedCount];
    assert shown[k] == skills[k];
    FilterLength(shown, IsShown);
    CountMissing(shown, IsShown, k);
    assert skills[..|skills|] == skills;
    FilterLength(skills, IsShown);
  }
}

/** The hero banner: its rotating role line and its heading. */
module HeroSection {
  import opened Base
  import opened Store

  const DefaultRoles: seq<string> :=
    ["Full Stack Developer", "UI/UX Designer", "Creative Technologist", "Next.js Expert"]

  const DefaultHeading: string := "Welcome to the Void"

  /** The roles the banner cycles through: the configured keywords, or the
      defaults when there are none. */
  function Roles(settings: Option<HeroSettings>): (roles: seq<string>)
    ensures |roles| > 0
    ensures settings.Some? && |settings.value.keywords| > 0 ==> roles == settings.value.keywords
    ensures settings.None? || |settings.value.keywords| == 0 ==> roles == DefaultRoles
  {
    if settings.Some? && |settings.value.keywords| > 0 then settings.value.keywords else DefaultRoles
  }

  /** One tick of the rotation timer. */
  function NextRole(prev: nat, n: nat): (next: nat)
    requires n > 0
    ensures next < n
    ensures prev + 1 < n ==> next == prev + 1
  {
    (prev + 1) % n
  }

  /** The role shown after `k` ticks, starting from the first. */
  function RoleAfter(k: nat, n: nat): (i: nat)
    requires n > 0
    ensures i < n
  {
    if k == 0 then 0 else NextRole(RoleAfter(k - 1, n), n)
  }

  /** The first `n` ticks show the roles in order. */
  lemma {:induction false} RoleAfterInOrder(k: nat, n: nat)
    requires k < n
    ensures RoleAfter(k, n) == k
  {
    if k > 0 {
      RoleAfterInOrder(k - 1, n);
    }
  }

  /** The rotation repeats every `n` ticks. */
  lemma {:induction false} RoleAfterPeriodic(k: nat, n: nat)
    requires n > 0
    ensures RoleAfter(k + n, n) == RoleAfter(k, n)
  {
    if k == 0 {
      RoleAfterInOrder(n - 1, n);
      assert RoleAfter(n, n) == NextRole(n - 1, n) == n % n == 0;
    } else {
      RoleAfterPeriodic(k - 1, n);
      assert RoleAfter(k + n, n) == NextRole(RoleAfter(k - 1 + n, n), n);
    }
  }

  /** The rotation shows every role in turn and is back at the first after a
      full cycle. */
  lemma RotationCycles(n: nat)
    requires n > 0
    ensures forall i :: 0 <= i < n ==> RoleAfter(i, n) == i
    ensures RoleAfter(n, n) == 0
  {
    forall i | 0 <= i < n
      ensures RoleAfter(i, n) == i
    {
      RoleAfterInOrder(i, n);
    }
    RoleAfterPeriodic(0, n);
  }

  /** The heading: the configured one, or the default when it is absent or
      empty. */
  function Heading(settings: Option<HeroSettings>): (h: string)
    ensures h != ""
    ensures settings.Some? && settings.value.heading != "" ==> h == settings.value.heading
    ensures settings.None? || settings.value.heading == "" ==> h == DefaultHeading
  {
    if settings.Some? && settings.value.heading != "" then settings.value.heading else DefaultHeading
  }
}

/** The home page: which sections appear, in which order, and their
    alternating backgrounds. */
module HomePage {
  import opened Base
  import opened Store

  datatype SectionId =
    | HeroBanner | About | ProjectList | SkillList | ExperienceList | EducationList
    | AchievementList | ResearchList | CertificationList | Contact

  /** A candidate section; `shown` is `None` for the sections that carry no
      visibility flag. */
  datatype Section = Section(id: SectionId, shown: Option<bool>)

  /** The sections in page order. */
  const PageOrder: seq<SectionId> :=
    [HeroBanner, About, ProjectList, SkillList, ExperienceList, EducationList,
     AchievementList, ResearchList, CertificationList, Contact]

  /** The visibility flag of a section: whether its collection has rows, and
      no flag at all for the hero banner, the about and the contact section. */
  function Flag(db: Db, id: SectionId): Option<bool> {
    match id
    case ProjectList => Some(|db.projects| > 0)
    case SkillList => Some(|db.skills| > 0)
    case ExperienceList => Some(|db.experiences| > 0)
    case EducationList => Some(|db.education| > 0)
    case AchievementList => Some(|db.achievements| > 0)
    case ResearchList => Some(|db.researchPapers| > 0)
    case CertificationList => Some(|db.certifications| > 0)
    case _ => None
  }

  /** Every candidate section in page order with its flag. */
  function Candidates(db: Db): (s: seq<Section>)
    ensures |s| == |PageOrder|
    ensures forall i :: 0 <= i < |s| ==>
      && s[i].id == PageOrder[i]
      && (s[i].shown.None? <==> s[i].id in {HeroBanner, About, Contact})
      && (s[i].shown.Some? ==> (s[i].shown.value <==> HasContent(db, s[i].id)))
  {
    seq(|PageOrder|, i requires 0 <= i < |PageOrder| => Section(PageOrder[i], Flag(db, PageOrder[i])))
  }

  /** A section is dropped only when its flag is explicitly false. */
  predicate Kept(s: Section) {
    s.shown != Some(false)
  }

  /** The position of a section in page order. */
  function Rank(id: SectionId): nat {
    match id
    case HeroBanner => 0
    case About => 1
    case ProjectList => 2
    case SkillList => 3
    case ExperienceList => 4
    case EducationList => 5
    case AchievementList => 6
    case ResearchList => 7
    case CertificationList => 8
    case Contact => 9
  }

  /** Whether the collection behind a section has rows; the fixed sections
      always count as present. */
  predicate HasContent(db: Db, id: SectionId) {
    match id
    case ProjectList => |db.projects| > 0
    case SkillList => |db.skills| > 0
    case ExperienceList => |db.experiences| > 0
    case EducationList => |db.education| > 0
    case AchievementList => |db.achievements| > 0
    case ResearchList => |db.researchPapers| > 0
    case CertificationList => |db.certifications| > 0
    case _ => true
  }

  function Ids(s: seq<Section>): (ids: seq<SectionId>)
    ensures |ids| == |s| && forall i :: 0 <= i < |s| ==> ids[i] == s[i].id
  {
    seq(|s|, i requires 0 <= i < |s| => s[i].id)
  }

  /** The candidates the page keeps, in order. */
  function KeptSections(db: Db): seq<Section> {
    Filter(Candidates(db), Kept)
  }

  /** The sections the page renders, in order. */
  function VisibleSections(db: Db): (ids: seq<SectionId>)
    ensures forall id :: id in ids <==> HasContent(db, id)
    ensures forall i, j :: 0 <= i < j < |ids| ==> Rank(ids[i]) < Rank(ids[j])
    ensures |ids| >= 3 && ids[0] == HeroBanner && ids[1] == About && ids[|ids| - 1] == Contact
  {
    KeptSorted(db);
    KeptEnds(db);
    IdsOfKept(db);
    Ids(KeptSections(db))
  }

  /** The rendered ids are exactly those of the sections with content. */
  lemma IdsOfKept(db: Db)
    ensures forall id :: id in Ids(KeptSections(db)) <==> HasContent(db, id)
  {
    var kept := KeptSections(db);
    var ids := Ids(kept);
    forall id
      ensures id in ids <==> HasContent(db, id)
    {
      KeptMembers(db, id);
      if id in ids {
        var i :| 0 <= i < |ids| && ids[i] == id;
        assert kept[i].id == id;
      }
      if HasContent(db, id) {
        var i :| 0 <= i < |kept| && kept[i].id == id;
        assert ids[i] == id;
      }
    }
  }

  /** Each section appears once in page order, at its rank, and its
      candidate is kept exactly when it has content. */
  lemma CandidateAt(db: Db, id: SectionId)
    ensures Rank(id) < |PageOrder| && PageOrder[Rank(id)] == id
    ensures forall k :: 0 <= k < |PageOrder| && PageOrder[k] == id ==> k == Rank(id)
    ensures Kept(Section(id, Flag(db, id))) <==> HasContent(db, id)
  {
  }

  function SectionRank(s: Section): int {
    Rank(s.id)
  }

  /** The kept sections are in page order. */
  lemma KeptSorted(db: Db)
    ensures forall i, j :: 0 <= i < j < |Ids(KeptSections(db))| ==>
      Rank(Ids(KeptSections(db))[i]) < Rank(Ids(KeptSections(db))[j])
  {
    var c := Candidates(db);
    forall i | 0 <= i < |c|
      ensures SectionRank(c[i]) == i
    {
      CandidateAt(db, PageOrder[i]);
    }
    assert Increasing(c, SectionRank);
    FilterKeepsSorted(c, Kept, SectionRank);
    var kept := KeptSections(db);
    assert Increasing(kept, SectionRank);
    assert forall i :: 0 <= i < |kept| ==> Ids(kept)[i] == kept[i].id;
  }

  /** The hero banner and the about section always open the page and the
      contact section always closes it. */
  lemma KeptEnds(db: Db)
    ensures |Ids(KeptSections(db))| >= 3
    ensures Ids(KeptSections(db))[0] == HeroBanner && Ids(KeptSections(db))[1] == About
    ensures Ids(KeptSections(db))[|Ids(KeptSections(db))| - 1] == Contact
  {
    var c := Candidates(db);
    var pre, last := c[..9], c[9..];
    assert c == pre + last;
    assert pre[0].id == HeroBanner && Kept(pre[0]);
    assert pre[1].id == About && Kept(pre[1]);
    assert last[0].id == Contact && Kept(last[0]);
    FilterAppend(pre, last, Kept);
    FilterKeepsAll(last, Kept);
    assert pre[1..][0] == pre[1];
    var kept := Filter(pre, Kept) + last;
    assert KeptSections(db) == kept;
    assert Filter(pre, Kept) == [pre[0]] + Filter(pre[1..], Kept);
    assert Filter(pre[1..], Kept) == [pre[1]] + Filter(pre[1..][1..], Kept);
    assert kept[0] == pre[0] && kept[1] == pre[1] && kept[|kept| - 1] == last[0];
  }

  /** A section is kept exactly when it has content. */
  lemma KeptMembers(db: Db, id: SectionId)
    ensures HasContent(db, id) ==> exists i :: 0 <= i < |KeptSections(db)| && KeptSections(db)[i].id == id
    ensures (exists i :: 0 <= i < |KeptSections(db)| && KeptSections(db)[i].id == id) ==> HasContent(db, id)
  {
    var c := Candidates(db);
    var kept := KeptSections(db);
    FilterMembers(c, Kept);
    CandidateAt(db, id);
    var k := Rank(id);
    assert c[k] == Section(id, Flag(db, id));
    if HasContent(db, id) {
      assert c[k] in kept;
      var i :| 0 <= i < |kept| && kept[i] == c[k];
      assert kept[i].id == id;
    }
    if i :| 0 <= i < |kept| && kept[i].id == id {
      var m :| 0 <= m < |c| && c[m] == kept[i];
      assert PageOrder[m] == id;
      assert Kept(c[k]);
    }
  }

  /** The background of the section at position `index`. */
  function Background(index: nat): (bg: string)
    ensures bg == "bg-transparent" || bg == "bg-black/20"
    ensures bg == "bg-transparent" <==> index % 2 == 0
  {
    if index % 2 == 0 then "bg-transparent" else "bg-black/20"
  }

  /** Neighbouring sections never share a background, and the hero banner is
      always transparent. */
  lemma BackgroundsAlternate(index: nat)
    ensures Background(index) != Background(index + 1)
    ensures Background(0) == "bg-transparent"
  {
  }
}

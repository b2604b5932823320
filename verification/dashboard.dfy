/** The admin dashboard's client-side rules: the tab strip and its count
    badges, the move-left / move-right buttons, the reorder request it sends,
    and the dispatch of delete buttons to the delete actions. */
module Dashboard {
  import opened Base
  import opened Store
  import opened ReorderRoute
  import Forms
  import SkillsSection

  // ---------------------------------------------------------------- tabs

  datatype Tab =
    | MessagesTab | HeroTab | ProfileTab | ProjectsTab | SkillsTab | ExperienceTab
    | EducationTab | AchievementsTab | ResearchTab | CertificationsTab

  /** The reorderable collection a tab lists, if any. */
  function Listed(tab: Tab): Option<Collection> {
    match tab
    case ProjectsTab => Some(Projects)
    case SkillsTab => Some(Skills)
    case ExperienceTab => Some(Experiences)
    case EducationTab => Some(Educations)
    case AchievementsTab => Some(Achievements)
    case ResearchTab => Some(ResearchPapers)
    case CertificationsTab => Some(Certifications)
    case _ => None
  }

  /** The number of rows of a collection. */
  function Size(db: Db, c: Collection): nat {
    match c
    case Projects => |db.projects|
    case Skills => |db.skills|
    case Experiences => |db.experiences|
    case Educations => |db.education|
    case Achievements => |db.achievements|
    case ResearchPapers => |db.researchPapers|
    case Certifications => |db.certifications|
  }

  /** The count a tab carries: its row count, and 0 for the hero and profile
      tabs. */
  function TabCount(tab: Tab, db: Db): nat {
    match tab
    case MessagesTab => |db.messages|
    case HeroTab => 0
    case ProfileTab => 0
    case _ => Size(db, Listed(tab).GetOr(Projects))
  }

  /** A tab shows a badge when its count is positive. */
  predicate ShowBadge(tab: Tab, db: Db) {
    TabCount(tab, db) > 0
  }

  /** The badge appears exactly on the message tab when there are messages
      and on a collection tab when its collection has rows; never on the hero
      or profile tab. */
  lemma BadgeRule(tab: Tab, db: Db)
    ensures tab == HeroTab || tab == ProfileTab ==> !ShowBadge(tab, db)
    ensures tab == MessagesTab ==> (ShowBadge(tab, db) <==> |db.messages| > 0)
    ensures Listed(tab).Some? ==> (ShowBadge(tab, db) <==> Size(db, Listed(tab).value) > 0)
  {
  }

  /** The model name a tab sends when its items are reordered. */
  function ReorderModel(tab: Tab): (name: Option<string>)
    ensures name.Some? <==> Listed(tab).Some?
  {
    match tab
    case ProjectsTab => Some("project")
    case SkillsTab => Some("skill")
    case ExperienceTab => Some("experience")
    case EducationTab => Some("education")
    case AchievementsTab => Some("achievement")
    case ResearchTab => Some("researchPaper")
    case CertificationsTab => Some("certification")
    case _ => None
  }

  /** Every name a tab sends passes the route's allow-list and selects the
      collection the tab lists. */
  lemma ReorderModelsAllowed(tab: Tab)
    requires ReorderModel(tab).Some?
    ensures ReorderModel(tab).value in AllowedModels
    ensures ParseModel(ReorderModel(tab).value) == Listed(tab)
  {
  }

  // ---------------------------------------------------------------- moves

  /** `r` is `s` with the entries at `k` and `k + 1` exchanged. */
  predicate SwappedAt<T(==)>(s: seq<T>, r: seq<T>, k: nat) {
    && |r| == |s| && k + 1 < |s|
    && r[k] == s[k + 1] && r[k + 1] == s[k]
    && forall j :: 0 <= j < |s| && j != k && j != k + 1 ==> r[j] == s[j]
  }

  /** The move-left button on the item at `i`: disabled on the first item,
      otherwise it swaps the item with its predecessor. */
  function MoveLeft<T(==)>(s: seq<T>, i: nat): (r: Option<seq<T>>)
    requires i < |s|
    ensures r.None? <==> i == 0
    ensures r.Some? ==> SwappedAt(s, r.value, i - 1)
  {
    if i > 0 then Some(s[i - 1 := s[i]][i := s[i - 1]]) else None
  }

  /** The move-right button on the item at `i`: disabled on the last item,
      otherwise it swaps the item with its successor. */
  function MoveRight<T(==)>(s: seq<T>, i: nat): (r: Option<seq<T>>)
    requires i < |s|
    ensures r.None? <==> i == |s| - 1
    ensures r.Some? ==> SwappedAt(s, r.value, i)
  {
    if i < |s| - 1 then Some(s[i := s[i + 1]][i + 1 := s[i]]) else None
  }

  /** A swap only rearranges: the same entries, as often as before. */
  lemma SwapIsPermutation<T>(s: seq<T>, r: seq<T>, k: nat)
    requires SwappedAt(s, r, k)
    ensures multiset(r) == multiset(s)
  {
    assert r == s[k := s[k + 1]][k + 1 := s[k]];
  }

  /** A swap keeps the ids of a list distinct. */
  lemma SwapKeepsDistinct<T>(s: seq<T>, r: seq<T>, k: nat)
    requires SwappedAt(s, r, k)
    requires Distinct(s)
    ensures Distinct(r)
  {
    forall i, j | 0 <= i < j < |r|
      ensures r[i] != r[j]
    {
      var i' := if i == k then k + 1 else if i == k + 1 then k else i;
      var j' := if j == k then k + 1 else if j == k + 1 then k else j;
      assert r[i] == s[i'] && r[j] == s[j'] && i' != j';
    }
  }

  predicate Distinct<T(==)>(s: seq<T>) {
    forall i, j :: 0 <= i < j < |s| ==> s[i] != s[j]
  }

  /** Moving an item left and then right again restores the list. */
  lemma LeftThenRight<T>(s: seq<T>, i: nat)
    requires 0 < i < |s|
    ensures MoveRight(MoveLeft(s, i).value, i - 1) == Some(s)
  {
    var l := MoveLeft(s, i).value;
    var r := MoveRight(l, i - 1).value;
    assert r == s;
  }

  /** Moving an item right and then left again restores the list. */
  lemma RightThenLeft<T>(s: seq<T>, i: nat)
    requires i + 1 < |s|
    ensures MoveLeft(MoveRight(s, i).value, i + 1) == Some(s)
  {
    var r := MoveRight(s, i).value;
    var l := MoveLeft(r, i + 1).value;
    assert l == s;
  }

  // ---------------------------------------------------------------- payload

  /** The items of the reorder request: each id of the list in its new order
      with its position as `order`. */
  function PayloadItems(ids: seq<Id>): (items: seq<Json>)
    ensures |items| == |ids|
    ensures forall i :: 0 <= i < |ids| ==>
      Prop(items[i], "id") == Some(JStr(ids[i])) && Prop(items[i], "order") == Some(JNum(i))
  {
    seq(|ids|, i requires 0 <= i < |ids| => JObj(map["id" := JStr(ids[i]), "order" := JNum(i)]))
  }

  /** The whole request body. */
  function Payload(model: string, ids: seq<Id>): Json {
    Body(model, PayloadItems(ids))
  }

  /** The updates listing `ids` with positions counted from `base`. */
  function Positions(ids: seq<Id>, base: nat): (us: seq<Update>)
    ensures |us| == |ids|
    ensures forall i :: 0 <= i < |ids| ==> us[i] == SetOrder(ids[i], base + i)
  {
    seq(|ids|, i requires 0 <= i < |ids| => SetOrder(ids[i], base + i))
  }

  /** The route reads the request as "row `ids[i]` goes to position `i`". */
  lemma PayloadParses(ids: seq<Id>)
    requires |ids| <= 0x8000_0000
    ensures ParseItems(PayloadItems(ids)) == Some(Positions(ids, 0))
  {
    var items := PayloadItems(ids);
    forall k | 0 <= k < |items|
      ensures ParseItem(items[k]) == Some(SetOrder(ids[k], k))
    {
      assert IsInt32(k);
    }
    var us := ParseItems(items).value;
    assert forall k :: 0 <= k < |us| ==> us[k] == Positions(ids, 0)[k];
    assert us == Positions(ids, 0);
  }

  /** With distinct ids, the order the batch leaves on `ids[i]` is its
      position, and ids outside the list get none. */
  lemma {:induction false} PositionsLastOrder(ids: seq<Id>, base: nat, id: Id)
    requires Distinct(ids)
    ensures forall i :: 0 <= i < |ids| && ids[i] == id ==> LastOrder(Positions(ids, base), id) == Some(base + i)
    ensures id !in ids ==> LastOrder(Positions(ids, base), id) == None
  {
    if |ids| > 0 {
      var us := Positions(ids, base);
      assert us[1..] == Positions(ids[1..], base + 1);
      PositionsLastOrder(ids[1..], base + 1, id);
      if ids[0] == id {
        assert id !in ids[1..];
      }
      forall i | 1 <= i < |ids| && ids[i] == id
        ensures LastOrder(us, id) == Some(base + i)
      {
        assert ids[1..][i - 1] == id;
      }
    }
  }

  /** A reordered list of stored ids, sent by the dashboard, leaves each
      listed row at its position in the list and every other row where it
      was; the rest of the database is untouched. */
  lemma ReorderRoundTrip(c: Collection, ids: seq<Id>, db: Db)
    requires TablesWellFormed(db)
    requires Distinct(ids) && |ids| <= 0x8000_0000
    requires AllStoredIn(db, c, Positions(ids, 0))
    ensures Put(Some(Payload(ModelName(c), ids)), db).0 == Ok
    ensures ReorderedIn(db, Put(Some(Payload(ModelName(c), ids)), db).1, c, Positions(ids, 0))
    ensures forall id :: id !in ids ==> LastOrder(Positions(ids, 0), id) == None
    ensures forall i :: 0 <= i < |ids| ==> LastOrder(Positions(ids, 0), ids[i]) == Some(i)
  {
    PayloadParses(ids);
    ModelNameRoundTrip(c);
    PutSpec(ModelName(c), PayloadItems(ids), Positions(ids, 0), db);
    forall id
      ensures id !in ids ==> LastOrder(Positions(ids, 0), id) == None
    {
      PositionsLastOrder(ids, 0, id);
    }
    forall i | 0 <= i < |ids|
      ensures LastOrder(Positions(ids, 0), ids[i]) == Some(i)
    {
      PositionsLastOrder(ids, 0, ids[i]);
    }
  }

  // ---------------------------------------------------------------- deletes

  /** The collection a delete button of the given kind deletes from. */
  function DeleteTarget(kind: string): (c: Option<Collection>)
    ensures c.Some? <==> kind in {"project", "skill", "experience", "education", "achievement", "research", "certification"}
  {
    if kind == "project" then Some(Projects)
    else if kind == "skill" then Some(Skills)
    else if kind == "experience" then Some(Experiences)
    else if kind == "education" then Some(Educations)
    else if kind == "achievement" then Some(Achievements)
    else if kind == "research" then Some(ResearchPapers)
    else if kind == "certification" then Some(Certifications)
    else None
  }

  /** The kind a tab's delete buttons pass. */
  function DeleteKind(tab: Tab): Option<string> {
    match tab
    case ProjectsTab => Some("project")
    case SkillsTab => Some("skill")
    case ExperienceTab => Some("experience")
    case EducationTab => Some("education")
    case AchievementsTab => Some("achievement")
    case ResearchTab => Some("research")
    case CertificationsTab => Some("certification")
    case _ => None
  }

  /** Each tab's delete buttons delete from the collection the tab lists. */
  lemma DeleteButtonsTargetListedCollection(tab: Tab)
    requires DeleteKind(tab).Some?
    ensures DeleteTarget(DeleteKind(tab).value) == Listed(tab)
  {
  }

  /** The delete handler: after confirmation, the delete action of the
      matching collection; nothing for an unknown kind or without
      confirmation. A failed delete reports failure without throwing, so the
      handler never alerts. */
  function HandleDelete(kind: string, id: Id, confirmed: bool, db: Db): (db': Db)
    ensures !confirmed || DeleteTarget(kind).None? ==> db' == db
    ensures confirmed && DeleteTarget(kind).Some? ==> DeletedFrom(db, db', DeleteTarget(kind).value, id)
  {
    if !confirmed then db
    else match DeleteTarget(kind)
      case None => db
      case Some(Projects) => db.(projects := Forms.Delete(db.projects, id).table)
      case Some(Skills) => db.(skills := Forms.Delete(db.skills, id).table)
      case Some(Experiences) => db.(experiences := Forms.Delete(db.experiences, id).table)
      case Some(Educations) => db.(education := Forms.Delete(db.education, id).table)
      case Some(Achievements) => db.(achievements := Forms.Delete(db.achievements, id).table)
      case Some(ResearchPapers) => db.(researchPapers := Forms.Delete(db.researchPapers, id).table)
      case Some(Certifications) => db.(certifications := Forms.Delete(db.certifications, id).table)
  }

  /** `db'` is `db` after one delete of `id` from collection `c`: that table
      lost the row if it had it, and no other table changed. */
  predicate DeletedFrom(db: Db, db': Db, c: Collection, id: Id) {
    && db'.messages == db.messages && db'.profiles == db.profiles && db'.heroSettings == db.heroSettings
    && (if c == Projects then db'.projects == Forms.Delete(db.projects, id).table else db'.projects == db.projects)
    && (if c == Skills then db'.skills == Forms.Delete(db.skills, id).table else db'.skills == db.skills)
    && (if c == Experiences then db'.experiences == Forms.Delete(db.experiences, id).table else db'.experiences == db.experiences)
    && (if c == Educations then db'.education == Forms.Delete(db.education, id).table else db'.education == db.education)
    && (if c == Achievements then db'.achievements == Forms.Delete(db.achievements, id).table else db'.achievements == db.achievements)
    && (if c == ResearchPapers then db'.researchPapers == Forms.Delete(db.researchPapers, id).table else db'.researchPapers == db.researchPapers)
    && (if c == Certifications then db'.certifications == Forms.Delete(db.certifications, id).table else db'.certifications == db.certifications)
  }

  /** A confirmed delete of a stored project removes exactly that row. */
  lemma DeleteProjectRemovesRow(id: Id, db: Db)
    requires UniqueIds(db.projects) && HasId(db.projects, id)
    ensures var db' := HandleDelete("project", id, true, db);
      |db'.projects| == |db.projects| - 1 && !HasId(db'.projects, id) && db'.skills == db.skills
  {
  }

  // ---------------------------------------------------------------- skills

  /** The colour of a skill's progress bar on the dashboard. */
  function BarColor(proficiency: int): (color: string)
    ensures color in {SkillsSection.Expert, SkillsSection.Advanced, SkillsSection.Intermediate, SkillsSection.Learning}
  {
    if proficiency >= 90 then "#22c55e"
    else if proficiency >= 80 then "#00d9ff"
    else if proficiency >= 60 then "#bc13fe"
    else "#ff0055"
  }

  /** The dashboard bar and the public ring use the same tiers. */
  lemma BarMatchesPublicRing(proficiency: int)
    ensures BarColor(proficiency) == SkillsSection.ColorOf(Some(proficiency))
  {
  }
}

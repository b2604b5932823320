/** The project seeding script: for each seed project, find an existing row
    whose title contains the seed's short name (the title up to the first en
    dash, trimmed) and refresh it, keeping an image it already has, or create
    the project when none matches. Seeds are processed in turn, each one
    seeing the rows the previous ones wrote. */
module SeedProjects {
  import opened Base
  import opened JsStrings
  import opened Store

  const EnDash: char := '\U{2013}'

  /** A seed project; every seed carries an image path. */
  datatype Seed = Seed(
    title: string,
    description: string,
    tags: seq<string>,
    imageUrl: string,
    featured: bool,
    isVisible: bool,
    order: int)

  /** The short name a seed is matched by: its title before the first en
      dash, trimmed. */
  function MatchKey(title: string): (key: string)
    ensures IsTrimmed(key)
    ensures EnDash !in key
  {
    TrimKeepsOut(Split(title, EnDash)[0], EnDash);
    Trim(Split(title, EnDash)[0])
  }

  /** A title always contains its own short name, so a project the script
      wrote is found again by the same seed. */
  lemma KeyInTitle(title: string)
    ensures Contains(title, MatchKey(title))
  {
    var p := Split(title, EnDash)[0];
    SplitFirstIsPrefix(title, EnDash);
    var k := |p| - |TrimStart(p)|;
    TrimOccurs(p);
    OccursInPrefix(title, p, Trim(p), k);
    assert OccursAt(title, MatchKey(title), k);
  }

  /** Without an en dash the whole title, trimmed, is the short name. */
  lemma MatchKeyWithoutDash(title: string)
    requires EnDash !in title
    ensures MatchKey(title) == Trim(title)
  {
    SplitWithoutSeparator(title, EnDash);
  }

  /** The short name is the text before the first en dash, trimmed. */
  lemma MatchKeyBeforeDash(a: string, b: string)
    requires EnDash !in a
    ensures MatchKey(a + [EnDash] + b) == Trim(a)
  {
    SplitAfterPiece(a, b, EnDash);
  }

  /** `existing.imageUrl || project.imageUrl`: an existing image is kept; a
      missing or empty one is replaced by the seed's. */
  function KeepImage(existing: Option<string>, seed: string): (r: Option<string>)
    ensures existing.Some? && existing.value != "" ==> r == existing
    ensures existing.None? || existing.value == "" ==> r == Some(seed)
  {
    if existing.Some? && existing.value != "" then existing else Some(seed)
  }

  /** Applying the image rule twice changes nothing more. */
  lemma KeepImageIdempotent(existing: Option<string>, seed: string)
    ensures KeepImage(KeepImage(existing, seed), seed) == KeepImage(existing, seed)
  {
  }

  /** Whether a stored project's title contains the key (the ORM's case-sensitive
      `contains`). */
  function Matches(key: string): Ordered<Project> -> bool {
    (o: Ordered<Project>) => Contains(o.fields.title, key)
  }

  /** The refreshed row: title, description, tags and position from the
      seed, the image by the image rule, everything else as it was. */
  function Merge(o: Ordered<Project>, s: Seed): (r: Ordered<Project>)
    ensures r.order == s.order
    ensures r.fields.title == s.title && r.fields.description == s.description && r.fields.tags == s.tags
    ensures r.fields.imageUrl == KeepImage(o.fields.imageUrl, s.imageUrl)
    ensures r.fields.link == o.fields.link && r.fields.githubLink == o.fields.githubLink
    ensures r.fields.featured == o.fields.featured && r.fields.isVisible == o.fields.isVisible
  {
    Ordered(s.order, o.fields.(title := s.title, description := s.description, tags := s.tags,
                               imageUrl := KeepImage(o.fields.imageUrl, s.imageUrl)))
  }

  /** A new row carrying every field of the seed; a seed has no links. It is
      already what refreshing it with the same seed would give. */
  function Created(s: Seed): (r: Ordered<Project>)
    ensures Merge(r, s) == r
    ensures r.fields.imageUrl == Some(s.imageUrl)
    ensures r.fields.link.None? && r.fields.githubLink.None?
    ensures r.fields.featured == s.featured && r.fields.isVisible == s.isVisible
  {
    Ordered(s.order, Project(s.title, s.description, Some(s.imageUrl), s.tags, None, None, s.featured, s.isVisible))
  }

  /** Refreshing a row the seed already refreshed changes nothing. */
  lemma MergeIdempotent(o: Ordered<Project>, s: Seed)
    ensures Merge(Merge(o, s), s) == Merge(o, s)
  {
    KeepImageIdempotent(o.fields.imageUrl, s.imageUrl);
  }

  /** One seed: refresh the first row (in storage order) whose title contains
      the seed's short name, or append a new row. */
  function Upsert(t: Table<Ordered<Project>>, s: Seed, freshId: Id): (t': Table<Ordered<Project>>)
    requires !HasId(t, freshId)
    ensures FirstWhere(t, Matches(MatchKey(s.title))).Some? ==>
      var i := FirstWhere(t, Matches(MatchKey(s.title))).value;
      t' == t[i := Row(t[i].id, Merge(t[i].data, s))]
    ensures FirstWhere(t, Matches(MatchKey(s.title))).None? ==>
      |t'| == |t| + 1 && t'[..|t|] == t && t'[|t|] == Row(freshId, Created(s))
    ensures UniqueIds(t) ==> UniqueIds(t')
  {
    match FirstWhere(t, Matches(MatchKey(s.title)))
    case Some(i) => t[i := Row(t[i].id, Merge(t[i].data, s))]
    case None => Insert(t, freshId, Created(s))
  }

  /** Running the same seed again changes nothing: it finds the row it wrote
      (and no earlier one), and refreshing it again is a no-op. */
  lemma UpsertIdempotent(t: Table<Ordered<Project>>, s: Seed, freshId: Id, freshId2: Id)
    requires !HasId(t, freshId)
    requires !HasId(Upsert(t, s, freshId), freshId2)
    ensures Upsert(Upsert(t, s, freshId), s, freshId2) == Upsert(t, s, freshId)
  {
    KeyInTitle(s.title);
    var p := Matches(MatchKey(s.title));
    if FirstWhere(t, p).Some? {
      RefreshedRowFoundAgain(t, s, FirstWhere(t, p).value);
    } else {
      CreatedRowFoundAgain(t, s, freshId);
    }
  }

  lemma RefreshedRowFoundAgain(t: Table<Ordered<Project>>, s: Seed, i: nat)
    requires Contains(s.title, MatchKey(s.title))
    requires FirstWhere(t, Matches(MatchKey(s.title))) == Some(i)
    ensures var t1 := t[i := Row(t[i].id, Merge(t[i].data, s))];
      FirstWhere(t1, Matches(MatchKey(s.title))) == Some(i) && Merge(t1[i].data, s) == t1[i].data
  {
    assert Matches(MatchKey(s.title))(Merge(t[i].data, s));
    FirstWhereOverwrite(t, i, Row(t[i].id, Merge(t[i].data, s)), Matches(MatchKey(s.title)));
    MergeIdempotent(t[i].data, s);
  }

  lemma CreatedRowFoundAgain(t: Table<Ordered<Project>>, s: Seed, freshId: Id)
    requires Contains(s.title, MatchKey(s.title))
    requires FirstWhere(t, Matches(MatchKey(s.title))).None?
    ensures FirstWhere(t + [Row(freshId, Created(s))], Matches(MatchKey(s.title))) == Some(|t|)
    ensures Merge(Created(s), s) == Created(s)
  {
    assert Matches(MatchKey(s.title))(Created(s));
    FirstWhereAppend(t, Row(freshId, Created(s)), Matches(MatchKey(s.title)));
  }

  /** The ids reserved for new rows: none of them is stored yet, and no two
      are equal. */
  predicate FreshIds(t: Table<Ordered<Project>>, freshIds: seq<Id>) {
    && (forall k :: 0 <= k < |freshIds| ==> !HasId(t, freshIds[k]))
    && (forall k, m :: 0 <= k < m < |freshIds| ==> freshIds[k] != freshIds[m])
  }

  /** `t'` keeps the rows of `t` at their positions (by id) and appends only
      rows whose ids come from `freshIds`. */
  predicate Extends(t: Table<Ordered<Project>>, t': Table<Ordered<Project>>, freshIds: seq<Id>) {
    && |t| <= |t'|
    && (forall j :: 0 <= j < |t| ==> t'[j].id == t[j].id)
    && (forall j :: |t| <= j < |t'| ==> t'[j].id in freshIds)
  }

  /** The whole script: every seed in turn, each new row taking the next
      fresh id. Existing rows keep their ids and positions, at most one row
      is added per seed, and every added row carries one of the fresh ids. */
  function SeedAll(t: Table<Ordered<Project>>, seeds: seq<Seed>, freshIds: seq<Id>): (t': Table<Ordered<Project>>)
    requires |freshIds| == |seeds|
    requires FreshIds(t, freshIds)
    ensures |t'| <= |t| + |seeds|
    ensures Extends(t, t', freshIds)
    decreases |seeds|
  {
    if |seeds| == 0 then t
    else
      var t1 := Upsert(t, seeds[0], freshIds[0]);
      UpsertKeepsIds(t, seeds[0], freshIds[0]);
      FreshStaysFresh(t, t1, freshIds);
      var r := SeedAll(t1, seeds[1..], freshIds[1..]);
      ExtendsTrans(t, t1, r, freshIds);
      r
  }

  /** One seed keeps the ids of the existing rows and adds at most the fresh
      one. */
  lemma UpsertKeepsIds(t: Table<Ordered<Project>>, s: Seed, freshId: Id)
    requires !HasId(t, freshId)
    ensures |Upsert(t, s, freshId)| <= |t| + 1
    ensures Extends(t, Upsert(t, s, freshId), [freshId])
  {
  }

  /** The fresh ids not used by the first seed are still unused after it. */
  lemma FreshStaysFresh(t: Table<Ordered<Project>>, t1: Table<Ordered<Project>>, freshIds: seq<Id>)
    requires |freshIds| > 0
    requires FreshIds(t, freshIds)
    requires Extends(t, t1, [freshIds[0]])
    ensures FreshIds(t1, freshIds[1..])
  {
    var rest := freshIds[1..];
    forall k | 0 <= k < |rest|
      ensures !HasId(t1, rest[k])
    {
      assert rest[k] == freshIds[k + 1] != freshIds[0];
      forall j | 0 <= j < |t1|
        ensures t1[j].id != rest[k]
      {
        if j < |t| {
          assert t[j].id != freshIds[k + 1];
        }
      }
    }
  }

  /** Extending by the first fresh id and then by the others extends by all
      of them. */
  lemma ExtendsTrans(t: Table<Ordered<Project>>, t1: Table<Ordered<Project>>, t2: Table<Ordered<Project>>, freshIds: seq<Id>)
    requires |freshIds| > 0
    requires Extends(t, t1, [freshIds[0]]) && Extends(t1, t2, freshIds[1..])
    ensures Extends(t, t2, freshIds)
  {
    forall j | |t| <= j < |t2|
      ensures t2[j].id in freshIds
    {
      if j >= |t1| {
        var k :| 0 <= k < |freshIds[1..]| && freshIds[1..][k] == t2[j].id;
        assert freshIds[k + 1] == t2[j].id;
      }
    }
  }

}

/** The colour migration: every skill whose stored colour is the old default
    cyan has that colour cleared (no display reads the stored colour); the
    script reports how many rows it changed. */
module MigrateSkills {
  import opened Base
  import opened Store

  const OldDefault: string := "#00d9ff"

  predicate HasOldDefault(r: Row<Ordered<Skill>>) {
    r.data.fields.color == Some(OldDefault)
  }

  /** `updateMany`: reset the matching rows' colour; the result is the new
      table and the number of rows changed. */
  function Migrate(t: Table<Ordered<Skill>>): (r: (Table<Ordered<Skill>>, nat))
    ensures |r.0| == |t|
    ensures r.1 == Count(t, HasOldDefault)
    ensures forall j :: 0 <= j < |t| ==> !HasOldDefault(r.0[j])
    ensures forall j :: 0 <= j < |t| ==>
      && r.0[j].id == t[j].id
      && r.0[j].data.order == t[j].data.order
      && r.0[j].data.fields == (if HasOldDefault(t[j]) then t[j].data.fields.(color := None) else t[j].data.fields)
  {
    if |t| == 0 then (t, 0)
    else
      var rest := Migrate(t[1..]);
      var head := if HasOldDefault(t[0]) then Row(t[0].id, Ordered(t[0].data.order, t[0].data.fields.(color := None))) else t[0];
      ([head] + rest.0, (if HasOldDefault(t[0]) then 1 else 0) + rest.1)
  }

  /** A second run finds nothing left to reset and reports 0. */
  lemma MigrateTwice(t: Table<Ordered<Skill>>)
    ensures Migrate(Migrate(t).0) == (Migrate(t).0, 0)
  {
    var t1 := Migrate(t).0;
    var t2 := Migrate(t1);
    assert Count(t1, HasOldDefault) == 0 by {
      NoneCounted(t1);
    }
    assert t2.0 == t1;
  }

  lemma {:induction false} NoneCounted(t: Table<Ordered<Skill>>)
    requires forall j :: 0 <= j < |t| ==> !HasOldDefault(t[j])
    ensures Count(t, HasOldDefault) == 0
  {
    if |t| > 0 {
      NoneCounted(t[1..]);
    }
  }
}

/** The reorder endpoint: a `PUT` whose JSON body names a collection and
    lists `{id, order}` pairs. The body is checked, the collection name is
    checked against a fixed allow-list before any table is touched, and then
    every pair becomes an update of that row's `order` column, all inside one
    transaction: either every update applies or none does. */
module ReorderRoute {
  import opened Base
  import opened Store

  /** A parsed JSON value. Numbers are integers here. */
  datatype Json =
    | JNull
    | JBool(b: bool)
    | JNum(n: int)
    | JStr(s: string)
    | JArr(elems: seq<Json>)
    | JObj(fields: map<string, Json>)

  /** `v[key]` in JavaScript: `None` is `undefined`. Only objects have the
      properties a request body is read for. */
  function Prop(v: Json, key: string): Option<Json> {
    match v
    case JObj(fs) => if key in fs then Some(fs[key]) else None
    case _ => None
  }

  /** JavaScript truthiness of a possibly undefined value. */
  predicate Truthy(v: Option<Json>) {
    match v
    case None => false
    case Some(JNull) => false
    case Some(JBool(b)) => b
    case Some(JNum(n)) => n != 0
    case Some(JStr(s)) => s != ""
    case Some(_) => true
  }

  /** The seven reorderable collections. */
  datatype Collection = Projects | Skills | Experiences | Educations | Achievements | ResearchPapers | Certifications

  /** The model name the client sends for a collection. */
  function ModelName(c: Collection): string {
    match c
    case Projects => "project"
    case Skills => "skill"
    case Experiences => "experience"
    case Educations => "education"
    case Achievements => "achievement"
    case ResearchPapers => "researchPaper"
    case Certifications => "certification"
  }

  const AllowedModels: seq<string> :=
    ["project", "skill", "experience", "education", "achievement", "researchPaper", "certification"]

  /** The allow-list check: the collection a model name selects, if any. */
  function ParseModel(name: string): (c: Option<Collection>)
    ensures c.Some? <==> name in AllowedModels
    ensures c.Some? ==> ModelName(c.value) == name
  {
    if name == "project" then Some(Projects)
    else if name == "skill" then Some(Skills)
    else if name == "experience" then Some(Experiences)
    else if name == "education" then Some(Educations)
    else if name == "achievement" then Some(Achievements)
    else if name == "researchPaper" then Some(ResearchPapers)
    else if name == "certification" then Some(Certifications)
    else None
  }

  /** Each collection is selected by its own model name. */
  lemma ModelNameRoundTrip(c: Collection)
    ensures ParseModel(ModelName(c)) == Some(c)
  {
  }

  /** The order column is a 32-bit signed integer. */
  predicate IsInt32(n: int) {
    -0x8000_0000 <= n < 0x8000_0000
  }

  /** One row update of the batch. An item without an `order` leaves the
      column alone (an undefined value writes nothing) but still names a row
      that must exist. */
  datatype Update = SetOrder(id: Id, order: int) | Touch(id: Id)

  /** The update an item asks for; `None` when the item is not an object, its
      id is not a string, or its order is neither absent nor a 32-bit integer
      (the ORM refuses such arguments). */
  function ParseItem(item: Json): (u: Option<Update>)
    ensures u.Some? && u.value.SetOrder? ==> Prop(item, "order") == Some(JNum(u.value.order))
    ensures u.Some? ==> Prop(item, "id") == Some(JStr(u.value.id))
    ensures u.Some? <==>
      && Prop(item, "id").Some? && Prop(item, "id").value.JStr?
      && (Prop(item, "order").None? || (Prop(item, "order").value.JNum? && IsInt32(Prop(item, "order").value.n)))
    ensures u.Some? ==> (u.value.Touch? <==> Prop(item, "order").None?)
  {
    match (Prop(item, "id"), Prop(item, "order"))
    case (Some(JStr(id)), None) => Some(Touch(id))
    case (Some(JStr(id)), Some(JNum(n))) => if IsInt32(n) then Some(SetOrder(id, n)) else None
    case _ => None
  }

  /** Every item parsed, or `None` when one of them does not. */
  function ParseItems(items: seq<Json>): (r: Option<seq<Update>>)
    ensures r.Some? <==> forall k :: 0 <= k < |items| ==> ParseItem(items[k]).Some?
    ensures r.Some? ==> |r.value| == |items|
    ensures r.Some? ==> forall k :: 0 <= k < |items| ==> r.value[k] == ParseItem(items[k]).value
  {
    if |items| == 0 then Some([])
    else match (ParseItem(items[0]), ParseItems(items[1..]))
      case (Some(u), Some(us)) => Some([u] + us)
      case _ => None
  }

  /** The order a batch leaves on row `id`: the last value it writes there. */
  function LastOrder(us: seq<Update>, id: Id): Option<int> {
    if |us| == 0 then None
    else match LastOrder(us[1..], id)
      case Some(v) => Some(v)
      case None => if us[0].SetOrder? && us[0].id == id then Some(us[0].order) else None
  }

  /** One update: `None` when the row does not exist (the ORM throws). */
  function ApplyOne<R>(t: Table<Ordered<R>>, u: Update): Option<Table<Ordered<R>>> {
    match u
    case SetOrder(id, n) => Modify(t, id, (o: Ordered<R>) => Ordered(n, o.fields))
    case Touch(id) => Modify(t, id, (o: Ordered<R>) => o)
  }

  /** The result of a batch on one table: same rows, same ids, same content;
      each row's order is the last one the batch wrote for it, if any. */
  predicate OrdersApplied<R(==)>(t: Table<Ordered<R>>, t': Table<Ordered<R>>, us: seq<Update>) {
    && |t'| == |t|
    && forall j :: 0 <= j < |t| ==>
         && t'[j].id == t[j].id
         && t'[j].data.fields == t[j].data.fields
         && t'[j].data.order == LastOrder(us, t[j].id).GetOr(t[j].data.order)
  }

  /** Every update names a stored row. */
  predicate AllStored<R>(t: Table<R>, us: seq<Update>) {
    forall k :: 0 <= k < |us| ==> HasId(t, us[k].id)
  }

  /** The batch in one transaction: every update in turn, or nothing at all
      when one of them fails. */
  function ApplyAll<R(==)>(t: Table<Ordered<R>>, us: seq<Update>): (r: Option<Table<Ordered<R>>>)
    requires UniqueIds(t)
    ensures r.Some? <==> AllStored(t, us)
    ensures r.Some? ==> OrdersApplied(t, r.value, us) && UniqueIds(r.value)
    decreases |us|
  {
    if |us| == 0 then Some(t)
    else match ApplyOne(t, us[0])
      case None => None
      case Some(t1) =>
        SameIdsSameStored(t, t1, us[1..]);
        StoredAfterFirst(t, us);
        ApplyAll(t1, us[1..])
  }

  /** A batch whose first update names a stored row is stored exactly when the
      rest of it is. */
  lemma StoredAfterFirst<R>(t: Table<R>, us: seq<Update>)
    requires |us| > 0 && HasId(t, us[0].id)
    ensures AllStored(t, us) <==> AllStored(t, us[1..])
  {
    if AllStored(t, us[1..]) {
      forall k | 0 <= k < |us|
        ensures HasId(t, us[k].id)
      {
        if k > 0 { assert us[k] == us[1..][k - 1]; }
      }
    }
  }

  /** Tables whose ids agree position by position store the same ids. */
  lemma SameIdsSameStored<R, S>(t: Table<R>, t': Table<S>, us: seq<Update>)
    requires |t'| == |t| && forall j :: 0 <= j < |t| ==> t'[j].id == t[j].id
    ensures UniqueIds(t) ==> UniqueIds(t')
    ensures AllStored(t, us) <==> AllStored(t', us)
    ensures forall id :: HasId(t, id) <==> HasId(t', id)
  {
    forall id
      ensures HasId(t, id) <==> HasId(t', id)
    {
      if HasId(t, id) {
        var j :| 0 <= j < |t| && t[j].id == id;
        assert t'[j].id == id;
      }
      if HasId(t', id) {
        var j :| 0 <= j < |t'| && t'[j].id == id;
        assert t[j].id == id;
      }
    }
  }

  /** The whole database after a batch on one collection. */
  function ApplyIn(db: Db, c: Collection, us: seq<Update>): Option<Db>
    requires TablesWellFormed(db)
  {
    match c
    case Projects => (match ApplyAll(db.projects, us) case None => None case Some(t) => Some(db.(projects := t)))
    case Skills => (match ApplyAll(db.skills, us) case None => None case Some(t) => Some(db.(skills := t)))
    case Experiences => (match ApplyAll(db.experiences, us) case None => None case Some(t) => Some(db.(experiences := t)))
    case Educations => (match ApplyAll(db.education, us) case None => None case Some(t) => Some(db.(education := t)))
    case Achievements => (match ApplyAll(db.achievements, us) case None => None case Some(t) => Some(db.(achievements := t)))
    case ResearchPapers => (match ApplyAll(db.researchPapers, us) case None => None case Some(t) => Some(db.(researchPapers := t)))
    case Certifications => (match ApplyAll(db.certifications, us) case None => None case Some(t) => Some(db.(certifications := t)))
  }

  /** Ids are unique in every reorderable collection. */
  predicate TablesWellFormed(db: Db) {
    && UniqueIds(db.projects) && UniqueIds(db.skills) && UniqueIds(db.experiences)
    && UniqueIds(db.education) && UniqueIds(db.achievements) && UniqueIds(db.researchPapers)
    && UniqueIds(db.certifications)
  }

  /** Every update names a row of collection `c`. */
  predicate AllStoredIn(db: Db, c: Collection, us: seq<Update>) {
    match c
    case Projects => AllStored(db.projects, us)
    case Skills => AllStored(db.skills, us)
    case Experiences => AllStored(db.experiences, us)
    case Educations => AllStored(db.education, us)
    case Achievements => AllStored(db.achievements, us)
    case ResearchPapers => AllStored(db.researchPapers, us)
    case Certifications => AllStored(db.certifications, us)
  }

  /** `db'` is `db` with the batch applied to collection `c` and nothing else
      changed. */
  predicate ReorderedIn(db: Db, db': Db, c: Collection, us: seq<Update>) {
    && db'.messages == db.messages && db'.profiles == db.profiles && db'.heroSettings == db.heroSettings
    && (if c == Projects then OrdersApplied(db.projects, db'.projects, us) else db'.projects == db.projects)
    && (if c == Skills then OrdersApplied(db.skills, db'.skills, us) else db'.skills == db.skills)
    && (if c == Experiences then OrdersApplied(db.experiences, db'.experiences, us) else db'.experiences == db.experiences)
    && (if c == Educations then OrdersApplied(db.education, db'.education, us) else db'.education == db.education)
    && (if c == Achievements then OrdersApplied(db.achievements, db'.achievements, us) else db'.achievements == db.achievements)
    && (if c == ResearchPapers then OrdersApplied(db.researchPapers, db'.researchPapers, us) else db'.researchPapers == db.researchPapers)
    && (if c == Certifications then OrdersApplied(db.certifications, db'.certifications, us) else db'.certifications == db.certifications)
  }

  lemma ApplyInSpec(db: Db, c: Collection, us: seq<Update>)
    requires TablesWellFormed(db)
    ensures ApplyIn(db, c, us).Some? <==> AllStoredIn(db, c, us)
    ensures ApplyIn(db, c, us).Some? ==> ReorderedIn(db, ApplyIn(db, c, us).value, c, us)
    ensures ApplyIn(db, c, us).Some? ==> TablesWellFormed(ApplyIn(db, c, us).value)
  {
  }

  datatype Response = Response(status: int, error: Option<string>)

  const Ok := Response(200, None)
  const BadBody := Response(400, Some("Invalid request body"))
  const BadModel := Response(400, Some("Invalid model"))
  const Failure := Response(500, Some("Failed to reorder items"))

  /** The request body the dashboard sends: a model name and a list of items. */
  function Body(name: string, items: seq<Json>): Json {
    JObj(map["model" := JStr(name), "items" := JArr(items)])
  }

  /** The handler. `body` is the parsed request body, `None` when it is not
      JSON; the result is the response and the database afterwards. */
  function Put(body: Option<Json>, db: Db): (r: (Response, Db))
    requires TablesWellFormed(db)
    ensures r.0 != Ok ==> r.1 == db
    ensures r.0 in {Ok, BadBody, BadModel, Failure}
  {
    match body
    case None => (Failure, db)                  // reading the body threw
    case Some(JNull) => (Failure, db)           // destructuring null threw
    case Some(v) =>
      var model := Prop(v, "model");
      var items := Prop(v, "items");
      if !Truthy(model) || !Truthy(items) || !items.value.JArr? then (BadBody, db)
      else if !model.value.JStr? || ParseModel(model.value.s).None? then (BadModel, db)
      else match ParseItems(items.value.elems)
        case None => (Failure, db)
        case Some(us) =>
          match ApplyIn(db, ParseModel(model.value.s).value, us)
          case None => (Failure, db)
          case Some(db') => (Ok, db')
  }

  // ---------------------------------------------------------------- properties

  /** A body without a model, without items, or whose items are not an array
      is refused as malformed, and nothing is written. */
  lemma MalformedBodyRefused(fields: map<string, Json>, db: Db)
    requires TablesWellFormed(db)
    requires !Truthy(Prop(JObj(fields), "model")) || !Truthy(Prop(JObj(fields), "items"))
             || !Prop(JObj(fields), "items").value.JArr?
    ensures Put(Some(JObj(fields)), db) == (BadBody, db)
  {
  }

  /** A model name outside the allow-list is refused before any update. */
  lemma UnknownModelRefused(name: string, items: seq<Json>, db: Db)
    requires TablesWellFormed(db)
    requires name != "" && name !in AllowedModels
    ensures Put(Some(Body(name, items)), db) == (BadModel, db)
  {
    assert ParseModel(name).None?;
  }

  /** An empty list of items is accepted and changes nothing. */
  lemma EmptyBatchSucceeds(name: string, db: Db)
    requires TablesWellFormed(db)
    requires name in AllowedModels
    ensures Put(Some(Body(name, [])), db) == (Ok, db)
  {
    var c := ParseModel(name).value;
    assert ParseItems([]) == Some([]);
    assert ApplyIn(db, c, []) == Some(db);
  }

  /** A well-formed request succeeds exactly when every item names a stored
      row of the selected collection; on success exactly the listed rows'
      `order` columns change, to the last value listed for each, and on
      failure nothing changes. */
  lemma PutSpec(name: string, items: seq<Json>, us: seq<Update>, db: Db)
    requires TablesWellFormed(db)
    requires name in AllowedModels
    requires ParseItems(items) == Some(us)
    ensures Put(Some(Body(name, items)), db).0 == Ok <==> AllStoredIn(db, ParseModel(name).value, us)
    ensures Put(Some(Body(name, items)), db).0 == Ok ==>
      ReorderedIn(db, Put(Some(Body(name, items)), db).1, ParseModel(name).value, us)
    ensures Put(Some(Body(name, items)), db).0 != Ok ==>
      Put(Some(Body(name, items)), db) == (Failure, db)
  {
    var c := ParseModel(name).value;
    PutReachesApply(name, items, us, db);
    ApplyInSpec(db, c, us);
  }

  /** A well-formed body with an allowed model and parsable items gets as far
      as the batch: the response is that of the batch. */
  lemma PutReachesApply(name: string, items: seq<Json>, us: seq<Update>, db: Db)
    requires TablesWellFormed(db)
    requires name in AllowedModels
    requires ParseItems(items) == Some(us)
    ensures ApplyIn(db, ParseModel(name).value, us).None? ==> Put(Some(Body(name, items)), db) == (Failure, db)
    ensures ApplyIn(db, ParseModel(name).value, us).Some? ==>
      Put(Some(Body(name, items)), db) == (Ok, ApplyIn(db, ParseModel(name).value, us).value)
  {
    var v := Body(name, items);
    assert Prop(v, "model") == Some(JStr(name));
    assert Prop(v, "items") == Some(JArr(items));
  }

  /** One malformed item fails the whole batch, and nothing is written. */
  lemma MalformedItemFailsBatch(name: string, items: seq<Json>, k: nat, db: Db)
    requires TablesWellFormed(db)
    requires name in AllowedModels
    requires k < |items| && ParseItem(items[k]).None?
    ensures Put(Some(Body(name, items)), db) == (Failure, db)
  {
  }
}

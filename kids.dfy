/** The Kid record lifecycle (app/routes/kids.py). */
module Kids {
  import opened Common
  import opened Store
  import opened PatientModels
  import Parents

  /** The create payload (KidCreate), its birthday already through the date validator.
      Its `deleted` field is accepted but never read by the create logic. */
  datatype KidCreate = KidCreate(
    name: string,
    parentId: int,
    birthday: Option<Temporal>,
    note: Option<string>,
    deleted: Option<bool>)

  /** The edit payload (KidUpdate). Its id is not read (the path's id is used), and
      parentName and parentLastVisit are not columns of the kids table. */
  datatype KidUpdate = KidUpdate(
    id: int,
    parentId: Option<int>,
    name: string,
    birthday: Option<Temporal>,
    parentName: Option<string>,
    parentLastVisit: Option<string>,
    deleted: bool)

  /** The lookup key of create: same name and same birthday, where no birthday
      matches no birthday (the comparison with None becomes IS NULL). The payload's
      birthday is bound as a DateTime value, as the column stores it. */
  predicate SameKid(k: KidRow, name: string, birthday: Option<Temporal>)
    ensures SameKid(k, name, birthday) ==> (k.cols.birthday.None? <==> birthday.None?)
    ensures (k.cols.name == name && birthday.Some? && birthday.value.Date? &&
             k.cols.birthday == Some(DateTime(birthday.value.day, 0))) ==> SameKid(k, name, birthday)
  {
    k.cols.name == name && k.cols.birthday == StoredDateTime(birthday)
  }

  /** The columns a payload gives a freshly inserted kid; birthday is a DateTime column. */
  function ColsOf(c: KidCreate): (r: KidCols)
    ensures r.name == c.name && r.birthday == StoredDateTime(c.birthday) && r.note == c.note
    ensures r.parentId == Some(c.parentId)
  {
    KidCols(Some(c.parentId), c.name, StoredDateTime(c.birthday), c.note)
  }

  /** What create does to a deleted kid with the same name and birthday: active again,
      name, birthday, note and parent overwritten, id and deletion time kept. */
  function RestoredByCreate(k: KidRow, c: KidCreate): (r: KidRow)
    ensures r.id == k.id && !r.deleted && r.deletedAt == k.deletedAt
    ensures r.cols == ColsOf(c)
  {
    k.(deleted := false,
       cols := k.cols.(name := c.name, birthday := StoredDateTime(c.birthday), note := c.note, parentId := Some(c.parentId)))
  }

  /** edit_kid's overwrite: a full replace of name, birthday, parent and the deleted
      flag (a missing birthday or parent clears it; the flag can go either way); note,
      id and deletion time are kept. */
  function Edited(k: KidRow, u: KidUpdate): (r: KidRow)
    ensures r.id == k.id && r.cols.note == k.cols.note && r.deletedAt == k.deletedAt
    ensures r.cols.name == u.name && r.cols.birthday == StoredDateTime(u.birthday)
    ensures r.cols.parentId == u.parentId && r.deleted == u.deleted
  {
    k.(cols := k.cols.(name := u.name, birthday := StoredDateTime(u.birthday), parentId := u.parentId),
       deleted := u.deleted)
  }

  /** Edit does not guard the key: it can give a kid the name and birthday of another
      active kid, so "at most one active kid per key" is not an invariant of this code. */
  lemma EditCanDuplicateKey(rows: map<int, KidRow>, a: int, b: int, u: KidUpdate)
    requires a in rows && b in rows && a != b && !rows[a].deleted
    requires u.name == rows[a].cols.name && StoredDateTime(u.birthday) == rows[a].cols.birthday && !u.deleted
    ensures var edited := rows[b := Edited(rows[b], u)];
      && a in edited && b in edited
      && !edited[a].deleted && SameKid(edited[a], u.name, u.birthday)
      && !edited[b].deleted && SameKid(edited[b], u.name, u.birthday)
  {
  }

  class KidTable {
    var rows: map<int, KidRow>
    var nextId: int

    ghost predicate Valid()
      reads this
    {
      Contiguous(rows, nextId) && IdsMatch(rows, IdOf)
    }

    constructor ()
      ensures Valid() && rows == map[] && nextId == 1
    {
      rows := map[];
      nextId := 1;
    }

    /** create_kid_db: the parent must exist and be active; then keyed on (name,
        birthday), the first such kid is restored if deleted or refused if active,
        and with none a new kid is inserted. */
    method Create(parents: Parents.ParentTable, c: KidCreate) returns (res: Result<KidRow>)
      requires Valid() && parents.Valid()
      modifies this
      ensures Valid()
      ensures !(c.parentId in parents.rows && !parents.rows[c.parentId].deleted) ==>
        res == Err(NotFound) && rows == old(rows) && nextId == old(nextId)
      ensures c.parentId in parents.rows && !parents.rows[c.parentId].deleted ==>
        forall k :: k in old(rows) && SameKid(old(rows)[k], c.name, c.birthday) &&
                    (forall j :: j in old(rows) && j < k ==> !SameKid(old(rows)[j], c.name, c.birthday)) ==>
          && (old(rows)[k].deleted ==>
                && rows == old(rows)[k := RestoredByCreate(old(rows)[k], c)]
                && nextId == old(nextId)
                && res == Ok(rows[k]))
          && (!old(rows)[k].deleted ==>
                res == Err(AlreadyExists) && rows == old(rows) && nextId == old(nextId))
      ensures c.parentId in parents.rows && !parents.rows[c.parentId].deleted &&
              (forall k :: k in old(rows) ==> !SameKid(old(rows)[k], c.name, c.birthday)) ==>
        && rows == old(rows)[old(nextId) := NewRow(old(nextId), ColsOf(c))]
        && nextId == old(nextId) + 1
        && res == Ok(rows[old(nextId)])
    {
      var parent := parents.GetById(c.parentId);
      if parent.None? || parent.value.deleted {
        return Err(NotFound);
      }
      var found := FirstMatch(rows, 1, nextId, (k: KidRow) => SameKid(k, c.name, c.birthday));
      if found.Some? {
        var existing := rows[found.value];
        if existing.deleted {
          var restored := RestoredByCreate(existing, c);
          rows := rows[existing.id := restored];
          res := Ok(restored);
        } else {
          res := Err(AlreadyExists);
        }
      } else {
        FirstMatchFinds(rows, nextId, (k: KidRow) => SameKid(k, c.name, c.birthday));
        var kid := NewRow(nextId, ColsOf(c));
        rows := rows[nextId := kid];
        nextId := nextId + 1;
        res := Ok(kid);
      }
    }

    /** edit_kid: an unknown id changes nothing (the redirect to /kids); a known one is
        overwritten, deleted or not. */
    method Edit(kidId: int, u: KidUpdate) returns (res: Result<KidRow>)
      requires Valid()
      modifies this
      ensures Valid()
      ensures kidId !in old(rows) ==> res == Err(NotFound) && rows == old(rows) && nextId == old(nextId)
      ensures kidId in old(rows) ==>
        && rows == old(rows)[kidId := Edited(old(rows)[kidId], u)]
        && nextId == old(nextId)
        && res == Ok(rows[kidId])
    {
      if kidId !in rows {
        return Err(NotFound);
      }
      var kid := Edited(rows[kidId], u);
      rows := rows[kidId := kid];
      res := Ok(kid);
    }
  }

  /** Creating a kid needs an active parent, and a second kid with the same name and
      birthday is refused while the first is active. */
  method CreateTwiceScenario()
  {
    var parents := new Parents.ParentTable();
    var pr := parents.Create(Parents.ParentCreate("0912345678", "P", "addr", None, None, None, None));
    var kids := new KidTable();
    var orphan := kids.Create(parents, KidCreate("K", 2, None, None, None));
    assert orphan == Err(NotFound);
    var c := KidCreate("K", 1, Some(Date(100)), None, None);
    var first := kids.Create(parents, c);
    assert first.Ok? && first.value.id == 1;
    var second := kids.Create(parents, c);
    assert second == Err(AlreadyExists);
  }

  /** After a kid is edited to deleted, creating it again restores the same row. */
  method EditThenCreateScenario()
  {
    var parents := new Parents.ParentTable();
    var pr := parents.Create(Parents.ParentCreate("0912345678", "P", "addr", None, None, None, None));
    var kids := new KidTable();
    var c := KidCreate("K", 1, Some(Date(100)), None, None);
    var first := kids.Create(parents, c);
    assert kids.rows == map[1 := NewRow(1, ColsOf(c))];
    var e := kids.Edit(1, KidUpdate(1, Some(1), "K", Some(Date(100)), None, None, true));
    assert e.Ok? && e.value.deleted;
    var again := kids.Create(parents, c.(note := Some("again")));
    assert again.Ok? && again.value.id == 1 && !again.value.deleted && kids.nextId == 2;
  }

  /** Two active kids end up with the same name and birthday after an edit; create
      then refuses that key, because the first match is active. */
  method EditDuplicatesKeyScenario()
  {
    var parents := new Parents.ParentTable();
    var pr := parents.Create(Parents.ParentCreate("0912345678", "P", "addr", None, None, None, None));
    var kids := new KidTable();
    var c := KidCreate("K", 1, Some(Date(100)), None, None);
    var first := kids.Create(parents, c);
    var second := kids.Create(parents, c.(name := "L"));
    assert kids.rows.Keys == {1, 2};
    var e := kids.Edit(2, KidUpdate(2, Some(1), "K", Some(DateTime(100, 0)), None, None, false));
    assert !kids.rows[1].deleted && SameKid(kids.rows[1], "K", Some(Date(100)));
    assert !kids.rows[2].deleted && SameKid(kids.rows[2], "K", Some(Date(100)));
    var third := kids.Create(parents, c);
    assert third == Err(AlreadyExists);
  }
}

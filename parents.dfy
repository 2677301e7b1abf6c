/** The Parent record lifecycle and search (app/routes/parents.py). */
module Parents {
  import opened Common
  import opened Store
  import opened PatientModels

  /** The create payload (ParentCreate), its dates already through the date validator.
      Its `deleted` field is accepted but never read by the create logic. */
  datatype ParentCreate = ParentCreate(
    phone: string,
    name: string,
    address: string,
    note: Option<string>,
    lastVisit: Option<Temporal>,
    expectedDate: Option<Temporal>,
    deleted: Option<bool>)

  /** The partial-update payload (ParentUpdate): None means "leave this column alone". */
  datatype ParentUpdate = ParentUpdate(
    name: Option<string>,
    address: Option<string>,
    note: Option<string>,
    lastVisit: Option<Temporal>,
    expectedDate: Option<Temporal>)

  /** The search route passes no limit, so the query's default applies. */
  const DefaultSearchLimit: nat := 50

  // ---------- Table invariants ----------

  /** The unique constraint on phone, which covers deleted rows too. */
  ghost predicate PhonesUnique(rows: map<int, ParentRow>)
  {
    forall a, b :: a in rows && b in rows && rows[a].cols.phone == rows[b].cols.phone ==> a == b
  }

  // ---------- Case-insensitive substring filters ----------

  /** ASCII case folding, the folding the store's lower() applies. */
  function Fold(c: char): (d: char)
    ensures 'A' <= c <= 'Z' ==> d as int == c as int + 32
    ensures !('A' <= c <= 'Z') ==> d == c
  {
    if 'A' <= c <= 'Z' then (c as int + 32) as char else c
  }

  function FoldText(s: string): (r: string)
    ensures |r| == |s|
    ensures forall i :: 0 <= i < |s| ==> r[i] == Fold(s[i])
  {
    seq(|s|, i requires 0 <= i < |s| => Fold(s[i]))
  }

  /** Whether `frag` occurs in `s` as a contiguous piece. */
  function Contains(s: string, frag: string): (b: bool)
    ensures frag == [] ==> b
    ensures |s| < |frag| ==> !b
  {
    if |frag| <= |s| && frag == s[..|frag|] then true
    else if s == [] then false
    else Contains(s[1..], frag)
  }

  /** `frag` occurs in `s` starting at position i. */
  predicate OccursAt(s: string, frag: string, i: int)
  {
    0 <= i <= |s| - |frag| && s[i..i + |frag|] == frag
  }

  /** Contains agrees with the positional definition of a substring. */
  lemma {:induction false} ContainsAt(s: string, frag: string)
    ensures Contains(s, frag) <==> exists i :: OccursAt(s, frag, i)
  {
    if |frag| <= |s| && frag == s[..|frag|] {
      assert OccursAt(s, frag, 0);
    } else if s == [] {
    } else {
      ContainsAt(s[1..], frag);
      if Contains(s[1..], frag) {
        var i :| OccursAt(s[1..], frag, i);
        assert s[i + 1..i + 1 + |frag|] == s[1..][i..i + |frag|];
        assert OccursAt(s, frag, i + 1);
      } else {
        forall i | OccursAt(s, frag, i) ensures false {
          OccursShift(s, frag, i);
        }
      }
    }
  }

  /** An occurrence that is not at the front is an occurrence in the tail, one to the left. */
  lemma OccursShift(s: string, frag: string, i: int)
    requires OccursAt(s, frag, i) && !(|frag| <= |s| && frag == s[..|frag|])
    ensures OccursAt(s[1..], frag, i - 1)
  {
    assert i != 0;
    var t := s[1..];
    assert forall k :: 0 <= k < |t| ==> t[k] == s[k + 1];
    assert t[i - 1..i - 1 + |frag|] == s[i..i + |frag|];
  }

  /** `ilike '%frag%'` on one column: an empty or missing filter lets every row through. */
  predicate FilterHolds(column: string, filter: Option<string>)
    ensures filter.Some? && filter.value == column ==> FilterHolds(column, filter)
    ensures filter.Some? && |column| < |filter.value| ==> !FilterHolds(column, filter)
  {
    filter.None? || filter.value == "" || Contains(FoldText(column), FoldText(filter.value))
  }

  /** The search conditions on one row: not deleted, then the phone and name filters. */
  predicate Listed(p: ParentRow, q: Option<string>, phone: Option<string>)
  {
    !p.deleted && FilterHolds(p.cols.phone, phone) && FilterHolds(p.cols.name, q)
  }

  // ---------- search_parents_db ----------

  /** The filtered rows among ids hi - 1 down to 1, highest id first: the query
      before its limit (`filter(...).order_by(id.desc())`). */
  function Descending(rows: map<int, ParentRow>, hi: int, q: Option<string>, phone: Option<string>)
    : (r: seq<ParentRow>)
    requires forall k :: k in rows ==> 1 <= k && rows[k].id == k
    decreases hi
    ensures forall i :: 0 <= i < |r| ==>
      1 <= r[i].id < hi && r[i].id in rows && rows[r[i].id] == r[i] && Listed(r[i], q, phone)
    ensures forall i, j :: 0 <= i < j < |r| ==> r[i].id > r[j].id
  {
    if hi <= 1 then []
    else if hi - 1 in rows && Listed(rows[hi - 1], q, phone) then [rows[hi - 1]] + Descending(rows, hi - 1, q, phone)
    else Descending(rows, hi - 1, q, phone)
  }

  /** Nothing the filters let through below hi is missing from Descending. */
  lemma {:induction false} DescendingComplete(rows: map<int, ParentRow>, hi: int, q: Option<string>, phone: Option<string>)
    requires forall k :: k in rows ==> 1 <= k && rows[k].id == k
    decreases hi
    ensures forall k :: k in rows && k < hi && Listed(rows[k], q, phone) ==> rows[k] in Descending(rows, hi, q, phone)
  {
    if hi > 1 {
      DescendingComplete(rows, hi - 1, q, phone);
    }
  }

  /** search_parents_db: the non-deleted rows passing both filters, by id descending,
      cut to `limit`; what is cut are only rows of lower id than every row returned. */
  function Search(rows: map<int, ParentRow>, nextId: int, q: Option<string>, phone: Option<string>, limit: nat)
    : (r: seq<ParentRow>)
    requires forall k :: k in rows ==> 1 <= k < nextId && rows[k].id == k
    ensures |r| <= limit
    ensures forall i :: 0 <= i < |r| ==> r[i].id in rows && rows[r[i].id] == r[i]
    ensures forall i :: 0 <= i < |r| ==> !r[i].deleted
    ensures forall i :: 0 <= i < |r| ==> FilterHolds(r[i].cols.phone, phone) && FilterHolds(r[i].cols.name, q)
    ensures forall i, j :: 0 <= i < j < |r| ==> r[i].id > r[j].id
    ensures |r| < limit ==> forall k :: k in rows && Listed(rows[k], q, phone) ==> rows[k] in r
    ensures forall i, k :: 0 <= i < |r| && k in rows && Listed(rows[k], q, phone) && k > r[i].id ==> rows[k] in r
  {
    var all := Descending(rows, nextId, q, phone);
    DescendingComplete(rows, nextId, q, phone);
    var r := if |all| <= limit then all else all[..limit];
    PrefixKeepsHigherIds(all, |r|);
    r
  }

  /** A prefix of an id-descending sequence holds every element whose id is higher
      than that of some element of the prefix. */
  lemma PrefixKeepsHigherIds(all: seq<ParentRow>, n: nat)
    requires n <= |all|
    requires forall i, j :: 0 <= i < j < |all| ==> all[i].id > all[j].id
    ensures forall i, x :: 0 <= i < n && x in all && x.id > all[i].id ==> x in all[..n]
  {
    forall i, x | 0 <= i < n && x in all && x.id > all[i].id
      ensures x in all[..n]
    {
      var j :| 0 <= j < |all| && all[j] == x;
      assert j < i;
      assert all[..n][j] == x;
    }
  }

  /** The worked example: five active parents Anna, Anne, Ben, Ann and Cara (ids 1 to 5),
      searched for "an" with limit 2, give the two highest-id matches, Ann then Anne. */
  lemma SearchExample(c: ParentCols)
    ensures var rows := map[
        1 := NewRow(1, c.(name := "Anna")), 2 := NewRow(2, c.(name := "Anne")),
        3 := NewRow(3, c.(name := "Ben")), 4 := NewRow(4, c.(name := "Ann")),
        5 := NewRow(5, c.(name := "Cara"))];
      Search(rows, 6, Some("an"), None, 2) == [rows[4], rows[2]]
  {
    var p1, p2, p3 := NewRow(1, c.(name := "Anna")), NewRow(2, c.(name := "Anne")), NewRow(3, c.(name := "Ben"));
    var p4, p5 := NewRow(4, c.(name := "Ann")), NewRow(5, c.(name := "Cara"));
    var rows := map[1 := p1, 2 := p2, 3 := p3, 4 := p4, 5 := p5];
    assert rows.Keys == {1, 2, 3, 4, 5};
    assert forall k :: k in rows ==> 1 <= k < 6 && rows[k].id == k;
    ListedExample(c);
    UnlistedExample(c);
    DescendingExample(rows, Some("an"), None, p1, p2, p3, p4, p5);
    assert [p4, p2, p1][..2] == [p4, p2];
  }

  /** The filter and order of the example, before its limit. */
  lemma DescendingExample(rows: map<int, ParentRow>, q: Option<string>, ph: Option<string>,
                          p1: ParentRow, p2: ParentRow, p3: ParentRow, p4: ParentRow, p5: ParentRow)
    requires rows == map[1 := p1, 2 := p2, 3 := p3, 4 := p4, 5 := p5]
    requires p1.id == 1 && p2.id == 2 && p3.id == 3 && p4.id == 4 && p5.id == 5
    requires Listed(p1, q, ph) && Listed(p2, q, ph) && !Listed(p3, q, ph) && Listed(p4, q, ph) && !Listed(p5, q, ph)
    ensures Descending(rows, 6, q, ph) == [p4, p2, p1]
  {
    assert rows.Keys == {1, 2, 3, 4, 5};
    assert forall k :: k in rows ==> 1 <= k && rows[k].id == k;
    assert Descending(rows, 1, q, ph) == [];
    assert Descending(rows, 2, q, ph) == [p1];
    assert Descending(rows, 3, q, ph) == [p2, p1];
    assert Descending(rows, 4, q, ph) == [p2, p1];
    assert Descending(rows, 5, q, ph) == [p4, p2, p1];
  }

  /** The example's names that the filter "an" lets through. */
  lemma ListedExample(c: ParentCols)
    ensures Listed(NewRow(1, c.(name := "Anna")), Some("an"), None)
    ensures Listed(NewRow(2, c.(name := "Anne")), Some("an"), None)
    ensures Listed(NewRow(4, c.(name := "Ann")), Some("an"), None)
  {
    assert FoldText("an") == "an";
    assert FoldText("Ann") == "ann";
    assert FoldText("Anne") == "anne";
    assert FoldText("Anna") == "anna";
    assert Contains("ann", "an");
    assert Contains("anne", "an");
    assert Contains("anna", "an");
  }

  /** The example's names that the filter "an" keeps out. */
  lemma UnlistedExample(c: ParentCols)
    ensures !Listed(NewRow(3, c.(name := "Ben")), Some("an"), None)
    ensures !Listed(NewRow(5, c.(name := "Cara")), Some("an"), None)
  {
    assert FoldText("an") == "an";
    assert FoldText("Cara") == "cara";
    assert FoldText("Ben") == "ben";
    assert !Contains("cara", "an") by {
      assert "cara"[..2] == "ca" && "cara"[1..] == "ara";
      assert "ara"[..2] == "ar" && "ara"[1..] == "ra";
      assert "ra"[..2] == "ra" && "ra"[1..] == "a";
      assert "a"[1..] == "";
    }
    assert !Contains("ben", "an") by {
      assert "ben"[..2] == "be" && "ben"[1..] == "en";
      assert "en"[..2] == "en" && "en"[1..] == "n";
      assert "n"[1..] == "";
    }
  }

  // ---------- Field changes made by the lifecycle operations ----------

  /** The columns a payload gives a freshly inserted parent, as the row reads back after
      the commit: last_visit is a DateTime column and expected_date a Date column. */
  function ColsOf(c: ParentCreate): (r: ParentCols)
    ensures r.phone == c.phone && r.name == c.name && r.address == c.address && r.note == c.note
    ensures r.lastVisit == StoredDateTime(c.lastVisit) && r.expectedDate == StoredDate(c.expectedDate)
  {
    ParentCols(c.phone, c.name, c.address, c.note, StoredDateTime(c.lastVisit), StoredDate(c.expectedDate))
  }

  /** What create does to a deleted row with the payload's phone: active again, the
      five payload columns overwritten, id and phone kept, and the deletion time LEFT
      as it was. */
  function RestoredByCreate(p: ParentRow, c: ParentCreate): (r: ParentRow)
    ensures r.id == p.id && r.cols.phone == p.cols.phone
    ensures !r.deleted && r.deletedAt == p.deletedAt
    ensures r.cols.name == c.name && r.cols.address == c.address && r.cols.note == c.note
    ensures r.cols.lastVisit == StoredDateTime(c.lastVisit) && r.cols.expectedDate == StoredDate(c.expectedDate)
  {
    p.(deleted := false,
       cols := p.cols.(name := c.name, address := c.address, note := c.note,
                       lastVisit := StoredDateTime(c.lastVisit), expectedDate := StoredDate(c.expectedDate)))
  }

  /** "deleted_at is set iff deleted" is not kept by this code: restoring through
      create leaves the deletion time of a soft-deleted row in place. */
  lemma CreateRestoreKeepsDeletionTime(p: ParentRow, now: Time, c: ParentCreate)
    requires c.phone == p.cols.phone
    ensures var r := RestoredByCreate(SoftDeleted(p, now), c);
      !r.deleted && r.deletedAt == Some(now)
  {
  }

  /** Soft-delete followed by create with the same phone brings back the same id with
      exactly the columns a fresh insert of that payload would have. */
  lemma SoftDeleteThenCreateReproducesPayload(p: ParentRow, now: Time, c: ParentCreate)
    requires c.phone == p.cols.phone
    ensures var r := RestoredByCreate(SoftDeleted(p, now), c);
      r.id == p.id && !r.deleted && r.cols == NewRow(p.id, ColsOf(c)).cols
  {
  }

  /** update_parent_db's field changes, as the refreshed row reads back: a column whose
      payload value is None keeps its old value; phone and the mixin's columns are never
      touched. */
  function Patched(p: ParentRow, u: ParentUpdate): (r: ParentRow)
    ensures r.id == p.id && r.cols.phone == p.cols.phone
    ensures r.deleted == p.deleted && r.deletedAt == p.deletedAt
    ensures r.cols.name == (if u.name.Some? then u.name.value else p.cols.name)
    ensures r.cols.address == (if u.address.Some? then u.address.value else p.cols.address)
    ensures r.cols.note == (if u.note.Some? then u.note else p.cols.note)
    ensures r.cols.lastVisit == (if u.lastVisit.Some? then StoredDateTime(u.lastVisit) else p.cols.lastVisit)
    ensures r.cols.expectedDate == (if u.expectedDate.Some? then StoredDate(u.expectedDate) else p.cols.expectedDate)
  {
    p.(cols := p.cols.(
      name := if u.name.Some? then u.name.value else p.cols.name,
      address := if u.address.Some? then u.address.value else p.cols.address,
      note := if u.note.Some? then u.note else p.cols.note,
      lastVisit := if u.lastVisit.Some? then StoredDateTime(u.lastVisit) else p.cols.lastVisit,
      expectedDate := if u.expectedDate.Some? then StoredDate(u.expectedDate) else p.cols.expectedDate))
  }

  /** A partial update applied twice is the update applied once, and one that gives
      no field changes nothing. */
  lemma PatchIdempotent(p: ParentRow, u: ParentUpdate)
    ensures Patched(Patched(p, u), u) == Patched(p, u)
    ensures Patched(p, ParentUpdate(None, None, None, None, None)) == p
  {
  }

  // ---------- The table ----------

  /** Replacing one row by a row with the same id and phone keeps the table invariant. */
  lemma ReplaceKeepsInvariant(rows: map<int, ParentRow>, nextId: int, id: int, p: ParentRow)
    requires Contiguous(rows, nextId) && IdsMatch(rows, IdOf) && PhonesUnique(rows)
    requires id in rows && p.id == id && p.cols.phone == rows[id].cols.phone
    ensures Contiguous(rows[id := p], nextId) && IdsMatch(rows[id := p], IdOf) && PhonesUnique(rows[id := p])
  {
  }

  class ParentTable {
    var rows: map<int, ParentRow>
    var nextId: int

    ghost predicate Valid()
      reads this
    {
      Contiguous(rows, nextId) && IdsMatch(rows, IdOf) && PhonesUnique(rows)
    }

    constructor ()
      ensures Valid() && rows == map[] && nextId == 1
    {
      rows := map[];
      nextId := 1;
    }

    /** get_parent_by_id: the row with that id, deleted or not. */
    function GetById(id: int): (r: Option<ParentRow>)
      reads this
      requires Valid()
      ensures r.Some? <==> id in rows
      ensures r.Some? ==> r.value == rows[id] && r.value.id == id
    {
      if id in rows then Some(rows[id]) else None
    }

    /** get_parent_by_phone: the row with that phone, deleted or not; there is at most one. */
    function GetByPhone(phone: string): (r: Option<ParentRow>)
      reads this
      requires Valid()
      ensures r.Some? <==> exists k :: k in rows && rows[k].cols.phone == phone
      ensures r.Some? ==> r.value.id in rows && rows[r.value.id] == r.value && r.value.cols.phone == phone
    {
      FirstMatchFinds(rows, nextId, (p: ParentRow) => p.cols.phone == phone);
      match FirstMatch(rows, 1, nextId, (p: ParentRow) => p.cols.phone == phone)
      case None => None
      case Some(k) => Some(rows[k])
    }

    /** The read_parent route: an absent id and a deleted parent both read as not found. */
    function ReadRoute(id: int): (r: Result<ParentRow>)
      reads this
      requires Valid()
      ensures r.Ok? <==> id in rows && !rows[id].deleted
      ensures r.Ok? ==> r.value == rows[id]
      ensures r.Err? ==> r.failure == NotFound
    {
      match GetById(id)
      case None => Err(NotFound)
      case Some(p) => if p.deleted then Err(NotFound) else Ok(p)
    }

    /** The search route: the search with the default limit. */
    function SearchRoute(q: Option<string>, phone: Option<string>): (r: seq<ParentRow>)
      reads this
      requires Valid()
      ensures |r| <= DefaultSearchLimit
      ensures forall i :: 0 <= i < |r| ==> !r[i].deleted
    {
      Search(rows, nextId, q, phone, DefaultSearchLimit)
    }

    /** create_parent_db: keyed on phone, three branches. */
    method Create(c: ParentCreate) returns (res: Result<ParentRow>)
      requires Valid()
      modifies this
      ensures Valid()
      ensures (exists k :: k in old(rows) && old(rows)[k].cols.phone == c.phone && !old(rows)[k].deleted) ==>
        res == Err(AlreadyExists) && rows == old(rows) && nextId == old(nextId)
      ensures forall k :: k in old(rows) && old(rows)[k].cols.phone == c.phone && old(rows)[k].deleted ==>
        && rows == old(rows)[k := RestoredByCreate(old(rows)[k], c)]
        && nextId == old(nextId)
        && res == Ok(rows[k])
      ensures (forall k :: k in old(rows) ==> old(rows)[k].cols.phone != c.phone) ==>
        && rows == old(rows)[old(nextId) := NewRow(old(nextId), ColsOf(c))]
        && nextId == old(nextId) + 1
        && res == Ok(rows[old(nextId)])
    {
      var existing := GetByPhone(c.phone);
      if existing.Some? {
        var p := existing.value;
        if p.deleted {
          // restore instead of inserting a duplicate phone
          var restored := RestoredByCreate(p, c);
          rows := rows[p.id := restored];
          res := Ok(restored);
        } else {
          res := Err(AlreadyExists);
        }
      } else {
        var p := NewRow(nextId, ColsOf(c));
        rows := rows[nextId := p];
        nextId := nextId + 1;
        res := Ok(p);
      }
    }

    /** update_parent_db, given an existing parent: only non-None fields change. */
    method Update(id: int, u: ParentUpdate) returns (p: ParentRow)
      requires Valid() && id in rows
      modifies this
      ensures Valid()
      ensures p == Patched(old(rows)[id], u)
      ensures rows == old(rows)[id := p] && nextId == old(nextId)
    {
      p := rows[id];
      if u.name.Some? { p := p.(cols := p.cols.(name := u.name.value)); }
      if u.address.Some? { p := p.(cols := p.cols.(address := u.address.value)); }
      if u.note.Some? { p := p.(cols := p.cols.(note := u.note)); }
      if u.lastVisit.Some? { p := p.(cols := p.cols.(lastVisit := StoredDateTime(u.lastVisit))); }
      if u.expectedDate.Some? { p := p.(cols := p.cols.(expectedDate := StoredDate(u.expectedDate))); }
      assert p == Patched(rows[id], u);
      ReplaceKeepsInvariant(rows, nextId, id, p);
      rows := rows[id := p];
    }

    /** soft_delete_parent_db: flag set and timestamp taken, whatever the current flag. */
    method SoftDelete(id: int, now: Time) returns (p: ParentRow)
      requires Valid() && id in rows
      modifies this
      ensures Valid()
      ensures p == SoftDeleted(old(rows)[id], now)
      ensures rows == old(rows)[id := p] && nextId == old(nextId)
    {
      p := rows[id].(deleted := true, deletedAt := Some(now));
      rows := rows[id := p];
    }

    /** restore_parent_db: flag and timestamp cleared, whatever the current flag. */
    method Restore(id: int) returns (p: ParentRow)
      requires Valid() && id in rows
      modifies this
      ensures Valid()
      ensures p == Restored(old(rows)[id])
      ensures rows == old(rows)[id := p] && nextId == old(nextId)
    {
      p := rows[id].(deleted := false, deletedAt := None);
      rows := rows[id := p];
    }

    /** The update_parent route: not found for an absent or deleted parent, with no change. */
    method UpdateRoute(id: int, u: ParentUpdate) returns (res: Result<ParentRow>)
      requires Valid()
      modifies this
      ensures Valid()
      ensures !(id in old(rows) && !old(rows)[id].deleted) ==>
        res == Err(NotFound) && rows == old(rows) && nextId == old(nextId)
      ensures id in old(rows) && !old(rows)[id].deleted ==>
        && rows == old(rows)[id := Patched(old(rows)[id], u)]
        && nextId == old(nextId)
        && res == Ok(rows[id])
    {
      var found := GetById(id);
      if found.None? || found.value.deleted {
        return Err(NotFound);
      }
      var p := Update(id, u);
      res := Ok(p);
    }

    /** The soft_delete_parent route: fails only for an absent id. */
    method SoftDeleteRoute(id: int, now: Time) returns (res: Result<()>)
      requires Valid()
      modifies this
      ensures Valid()
      ensures id !in old(rows) ==> res == Err(NotFound) && rows == old(rows) && nextId == old(nextId)
      ensures id in old(rows) ==>
        && res == Ok(())
        && rows == old(rows)[id := SoftDeleted(old(rows)[id], now)]
        && nextId == old(nextId)
    {
      var found := GetById(id);
      if found.None? {
        return Err(NotFound);
      }
      var _ := SoftDelete(id, now);
      res := Ok(());
    }

    /** The restore_parent route: fails only for an absent id. */
    method RestoreRoute(id: int) returns (res: Result<()>)
      requires Valid()
      modifies this
      ensures Valid()
      ensures id !in old(rows) ==> res == Err(NotFound) && rows == old(rows) && nextId == old(nextId)
      ensures id in old(rows) ==>
        && res == Ok(())
        && rows == old(rows)[id := Restored(old(rows)[id])]
        && nextId == old(nextId)
    {
      var found := GetById(id);
      if found.None? {
        return Err(NotFound);
      }
      var _ := Restore(id);
      res := Ok(());
    }
  }

  /** The worked examples: creating a phone twice fails the second time; after a
      soft-delete, creating it again restores the same id with the new name. */
  method CreateDeleteCreateScenario(now: Time)
  {
    var t := new ParentTable();
    var a := ParentCreate("0912345678", "A", "addr", None, None, None, None);
    var r1 := t.Create(a);
    assert r1.Ok? && r1.value.id == 1;
    var r2 := t.Create(a);
    assert r2 == Err(AlreadyExists);
    var d := t.SoftDeleteRoute(1, now);
    assert d.Ok?;
    var again := t.UpdateRoute(1, ParentUpdate(Some("X"), None, None, None, None));
    assert again == Err(NotFound);
    var r3 := t.Create(a.(name := "B"));
    assert r3.Ok? && r3.value.id == 1 && r3.value.cols.name == "B" && !r3.value.deleted;
    assert r3.value.deletedAt == Some(now);
  }
}

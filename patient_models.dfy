/** The Parent, Kid and Exam tables and the soft-delete mixin they share
    (app/models/patient_exam_base.py). */
module PatientModels {
  import opened Common
  import DateParsing

  /** A row of a table that mixes in SoftDeleteMixin: its id, its own columns, and
      the mixin's two columns. The mixin declares `deleted` not null, but Parent, Kid
      and Exam each redeclare it as a nullable column; every write this model makes
      stores true or false, so it is a bool here. `deletedAt` may be null. */
  datatype Row<K, C> = Row(id: K, cols: C, deleted: bool, deletedAt: Option<Time>)

  /** The id of a row of an integer-keyed table. */
  function IdOf<C>(r: Row<int, C>): int
  {
    r.id
  }

  /** What a Date column holds once written: the store keeps only the calendar day, so a
      datetime loses its time of day. */
  function StoredDate(t: Option<Temporal>): (r: Option<Temporal>)
    ensures r.None? <==> t.None?
    ensures r.Some? ==> r.value.Date? && r.value.day == t.value.day
  {
    match t
    case None => None
    case Some(v) => Some(DateParsing.DateOf(v))
  }

  /** What a DateTime column holds once written: a datetime is kept, and a date becomes
      midnight of that day. */
  function StoredDateTime(t: Option<Temporal>): (r: Option<Temporal>)
    ensures r.None? <==> t.None?
    ensures r.Some? ==> r.value.DateTime? && r.value.day == t.value.day
    ensures t.Some? && t.value.DateTime? ==> r == t
    ensures t.Some? && t.value.Date? ==> r == Some(DateTime(t.value.day, 0))
  {
    match t
    case None => None
    case Some(DateTime(d, sec)) => Some(DateTime(d, sec))
    case Some(Date(d)) => Some(DateTime(d, 0))
  }

  /** A value read back from a date or datetime column is written back unchanged, and a
      Date column keeps the same day whether or not the value went through a DateTime
      column first. */
  lemma StoredValuesAreFixed(t: Option<Temporal>)
    ensures StoredDate(StoredDate(t)) == StoredDate(t)
    ensures StoredDateTime(StoredDateTime(t)) == StoredDateTime(t)
    ensures StoredDate(StoredDateTime(t)) == StoredDate(t)
  {
  }

  /** A row as first inserted: the mixin's defaults, deleted = false and no deletion time. */
  function NewRow<K, C>(id: K, cols: C): (r: Row<K, C>)
    ensures r.id == id && r.cols == cols
    ensures !r.deleted && r.deletedAt == None
  {
    Row(id, cols, false, None)
  }

  /** The mixin's transition: marked deleted at `now`; id and columns untouched. */
  function SoftDeleted<K, C>(r: Row<K, C>, now: Time): (d: Row<K, C>)
    ensures d.id == r.id && d.cols == r.cols
    ensures d.deleted && d.deletedAt == Some(now)
  {
    r.(deleted := true, deletedAt := Some(now))
  }

  /** The explicit restore: active again and the deletion time cleared. */
  function Restored<K, C>(r: Row<K, C>): (a: Row<K, C>)
    ensures a.id == r.id && a.cols == r.cols
    ensures !a.deleted && a.deletedAt == None
  {
    r.(deleted := false, deletedAt := None)
  }

  /** Restoring a soft-deleted row gives back the row as it was while it was active
      and had never been deleted. */
  lemma RestoreUndoesSoftDelete<K, C>(r: Row<K, C>, now: Time)
    requires !r.deleted && r.deletedAt == None
    ensures Restored(SoftDeleted(r, now)) == r
  {
  }

  /** Neither transition looks at the current flags: applied twice, they leave the
      flags they leave when applied once. */
  lemma TransitionsIgnoreCurrentFlags<K, C>(r: Row<K, C>, t1: Time, t2: Time)
    ensures SoftDeleted(SoftDeleted(r, t1), t2) == SoftDeleted(r, t2)
    ensures Restored(Restored(r)) == Restored(r)
  {
  }

  /** The columns of a Parent besides id and the mixin's. Phone is unique and not
      null; name and address are not null; the rest are nullable. */
  datatype ParentCols = ParentCols(
    phone: string,
    name: string,
    address: string,
    note: Option<string>,
    lastVisit: Option<Temporal>,
    expectedDate: Option<Temporal>)

  /** The columns of a Kid: its parent link is a nullable foreign key. */
  datatype KidCols = KidCols(
    parentId: Option<int>,
    name: string,
    birthday: Option<Temporal>,
    note: Option<string>)

  /** The columns of an Exam: the parent link is required, the kid link optional. */
  datatype ExamCols = ExamCols(
    parentId: int,
    kidId: Option<int>,
    examTime: Time,
    weight: Option<Float>,
    height: Option<Float>,
    history: Option<string>,
    reexamDate: Option<Temporal>,
    paidStatus: Option<bool>,
    createAt: Option<Time>,
    updateAt: Option<Time>,
    note: Option<string>)

  type ParentRow = Row<int, ParentCols>
  type KidRow = Row<int, KidCols>
  /** Exam ids are UUID strings, not integers. */
  type ExamRow = Row<string, ExamCols>

  /** The ORM session as far as the mixin touches it: the objects added to it. */
  class Session {
    var added: set<object>

    constructor ()
      ensures added == {}
    {
      added := {};
    }
  }

  /** An ORM instance of a class that mixes in SoftDeleteMixin (Parent, Kid or Exam). */
  class Instance<K, C> {
    var row: Row<K, C>

    /** A new instance carries the column defaults. */
    constructor (id: K, cols: C)
      ensures row == NewRow(id, cols)
    {
      row := NewRow(id, cols);
    }

    /** SoftDeleteMixin.soft_delete: flag and timestamp set, every other column kept,
        and the instance added to the session only when one is given. */
    method SoftDelete(now: Time, session: Session?)
      modifies this, session
      ensures row == SoftDeleted(old(row), now)
      ensures session != null ==> session.added == old(session.added) + {this}
    {
      row := SoftDeleted(row, now);
      if session != null {
        session.added := session.added + {this};
      }
    }
  }
}

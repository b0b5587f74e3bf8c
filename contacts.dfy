/** Rows of the `Contact` table, the `SELECT` the service runs on them, the
    `UPDATE` that demotes a primary, and the invariants the table keeps. */
module Contacts {

  datatype Option<T> = None | Some(value: T)

  /** The column `linkPrecedence ENUM('primary', 'secondary') NOT NULL`. */
  datatype Precedence = Primary | Secondary

  /** One row. `updatedAt` and `deletedAt` are never read by the service and are
      not modelled; `createdAt` is a logical time assigned by the table. */
  datatype Contact = Contact(
    id: nat,
    phoneNumber: Option<string>,
    email: Option<string>,
    linkedId: Option<nat>,
    linkPrecedence: Precedence,
    createdAt: nat)

  /** The whole table: its rows in insertion order (which is also the order a
      `SELECT` returns them in), the next `AUTO_INCREMENT` id and the time of the
      latest insert. */
  datatype Snapshot = Snapshot(rows: seq<Contact>, nextId: nat, clock: nat)

  /** SQL `column = param`: a comparison with NULL is UNKNOWN, and a `WHERE`
      clause keeps a row only when its condition is TRUE. */
  predicate SqlEquals(column: Option<string>, param: Option<string>) {
    column.Some? && param.Some? && column.value == param.value
  }

  /** `WHERE email = %s OR phoneNumber = %s` with the sighting's two fields. */
  predicate Matches(c: Contact, email: Option<string>, phoneNumber: Option<string>) {
    SqlEquals(c.email, email) || SqlEquals(c.phoneNumber, phoneNumber)
  }

  /** The elements of `s` that satisfy `p`, in their order in `s`. */
  function Filter<T(!new)>(s: seq<T>, p: T -> bool): (r: seq<T>)
    ensures |r| <= |s|
    ensures forall x :: x in r <==> x in s && p(x)
  {
    if s == [] then []
    else
      var init := Filter(s[..|s| - 1], p);
      assert s == s[..|s| - 1] + [s[|s| - 1]];
      if p(s[|s| - 1]) then init + [s[|s| - 1]] else init
  }

  lemma FilterSnoc<T(!new)>(s: seq<T>, x: T, p: T -> bool)
    ensures Filter(s + [x], p) == Filter(s, p) + if p(x) then [x] else []
  {
    assert (s + [x])[..|s|] == s;
  }

  /** Filtering a sequence none of whose elements passes keeps nothing. */
  lemma FilterNone<T(!new)>(s: seq<T>, p: T -> bool)
    requires forall x :: x in s ==> !p(x)
    ensures Filter(s, p) == []
  {
    if s != [] {
      FilterNone(s[..|s| - 1], p);
    }
  }

  /** The rows `SELECT * FROM Contact WHERE email = %s OR phoneNumber = %s`
      returns: exactly the rows whose email equals the sighting's non-null
      email or whose phone number equals the sighting's non-null phone number. */
  function Lookup(rows: seq<Contact>, email: Option<string>, phoneNumber: Option<string>): (hits: seq<Contact>)
    ensures forall c :: c in hits <==>
      c in rows && ((email.Some? && c.email == email) || (phoneNumber.Some? && c.phoneNumber == phoneNumber))
  {
    Filter(rows, c => Matches(c, email, phoneNumber))
  }

  /** The ids of a list of rows. */
  function IdsOf(cs: seq<Contact>): set<nat> {
    set c | c in cs :: c.id
  }

  lemma IdsOfSnoc(cs: seq<Contact>, c: Contact)
    ensures IdsOf(cs + [c]) == IdsOf(cs) + {c.id}
  {
  }

  /** The row after `SET linkPrecedence = 'secondary', linkedId = target`. */
  function Demote(c: Contact, target: nat): Contact {
    c.(linkPrecedence := Secondary, linkedId := Some(target))
  }

  /** The table's rows after `UPDATE Contact SET linkPrecedence = 'secondary',
      linkedId = target WHERE id = i` for every `i` in `ids`. */
  function Relink(rows: seq<Contact>, ids: set<nat>, target: nat): seq<Contact> {
    seq(|rows|, k requires 0 <= k < |rows| => if rows[k].id in ids then Demote(rows[k], target) else rows[k])
  }

  lemma RelinkOneMore(rows: seq<Contact>, ids: set<nat>, id: nat, target: nat)
    ensures Relink(Relink(rows, ids, target), {id}, target) == Relink(rows, ids + {id}, target)
  {
  }

  /** The row an `INSERT` adds: the next `AUTO_INCREMENT` id and a creation time
      `tick` after the latest one. */
  function NewRow(t: Snapshot, email: Option<string>, phoneNumber: Option<string>,
                  precedence: Precedence, linkedId: Option<nat>, tick: nat): Contact
  {
    Contact(t.nextId, phoneNumber, email, linkedId, precedence, t.clock + tick)
  }

  /** The table after the `INSERT` of row `c`. */
  function Add(t: Snapshot, c: Contact): Snapshot {
    Snapshot(t.rows + [c], t.nextId + 1, c.createdAt)
  }

  /** Rows listed in strictly increasing id and non-decreasing creation time. */
  predicate InIdOrder(cs: seq<Contact>) {
    forall i, j :: 0 <= i < j < |cs| ==> cs[i].id < cs[j].id && cs[i].createdAt <= cs[j].createdAt
  }

  /** What `AUTO_INCREMENT` and `DEFAULT CURRENT_TIMESTAMP` guarantee: rows are
      stored in id order, every id is below the next one, no row is younger
      than the clock. */
  predicate WellFormed(t: Snapshot) {
    && InIdOrder(t.rows)
    && forall i :: 0 <= i < |t.rows| ==> t.rows[i].id < t.nextId && t.rows[i].createdAt <= t.clock
  }

  /** A row's link is consistent: it has a `linkedId` exactly when it is
      secondary, and the link points at an existing, older row. */
  predicate LinkOk(c: Contact, rows: seq<Contact>) {
    && (c.linkPrecedence == Secondary <==> c.linkedId.Some?)
    && (c.linkedId.Some? ==> c.linkedId.value < c.id && c.linkedId.value in IdsOf(rows))
  }

  predicate Linked(rows: seq<Contact>) {
    forall i :: 0 <= i < |rows| ==> LinkOk(rows[i], rows)
  }

  /** Filtering keeps id order, so the `SELECT` and the list comprehensions over
      its result list rows oldest first. */
  lemma {:induction false} FilterKeepsOrder(s: seq<Contact>, p: Contact -> bool)
    requires InIdOrder(s)
    ensures InIdOrder(Filter(s, p))
  {
    if s != [] {
      var init := s[..|s| - 1];
      var last := s[|s| - 1];
      FilterKeepsOrder(init, p);
      var r0 := Filter(init, p);
      forall x | x in r0
        ensures x.id < last.id && x.createdAt <= last.createdAt
      {
        var k :| 0 <= k < |init| && init[k] == x;
      }
    }
  }

  /** Two rows of a well-formed table with the same id are the same row. */
  lemma IdsIdentify(rows: seq<Contact>, a: Contact, b: Contact)
    requires InIdOrder(rows) && a in rows && b in rows && a.id == b.id
    ensures a == b
  {
    var i :| 0 <= i < |rows| && rows[i] == a;
    var j :| 0 <= j < |rows| && rows[j] == b;
    if i < j || j < i {
      assert false;
    }
  }

  /** An insert with the next id and a later time keeps the table well formed. */
  lemma AddKeepsWellFormed(t: Snapshot, email: Option<string>, phoneNumber: Option<string>,
                           precedence: Precedence, linkedId: Option<nat>, tick: nat)
    requires WellFormed(t)
    ensures var t' := Add(t, NewRow(t, email, phoneNumber, precedence, linkedId, tick));
      WellFormed(t') && t'.rows[..|t.rows|] == t.rows
  {
  }

  /** An update of links never changes ids or times, so keeps the table well formed. */
  lemma RelinkKeepsWellFormed(t: Snapshot, ids: set<nat>, target: nat)
    requires WellFormed(t)
    ensures WellFormed(t.(rows := Relink(t.rows, ids, target)))
  {
  }
}

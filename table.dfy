/** The `Contact` table as the service sees it: an in-memory list of rows, the
    `AUTO_INCREMENT` counter and a clock for `createdAt`. Each method is one SQL
    statement the service issues, committed on its own. */
module Table {
  import opened Contacts

  class ContactTable {
    var rows: seq<Contact>
    var nextId: nat
    var clock: nat

    function State(): Snapshot
      reads this
    {
      Snapshot(rows, nextId, clock)
    }

    ghost predicate Valid()
      reads this
    {
      WellFormed(State())
    }

    /** `CREATE TABLE IF NOT EXISTS Contact (...)` on an empty database:
        `AUTO_INCREMENT` hands out 1 first. */
    constructor ()
      ensures Valid() && State() == Snapshot([], 1, 0)
    {
      rows, nextId, clock := [], 1, 0;
    }

    /** `INSERT INTO Contact (email, phoneNumber, linkPrecedence, linkedId)`
        followed by `SELECT * FROM Contact WHERE id = lastrowid`: the new row gets
        the next id and a creation time `tick` after the latest insert. */
    method Insert(email: Option<string>, phoneNumber: Option<string>,
                  precedence: Precedence, linkedId: Option<nat>, tick: nat) returns (c: Contact)
      requires Valid()
      modifies this
      ensures Valid()
      ensures c == NewRow(old(State()), email, phoneNumber, precedence, linkedId, tick)
      ensures State() == Add(old(State()), c)
      ensures rows[..|old(rows)|] == old(rows)
    {
      AddKeepsWellFormed(State(), email, phoneNumber, precedence, linkedId, tick);
      c := Contact(nextId, phoneNumber, email, linkedId, precedence, clock + tick);
      rows := rows + [c];
      nextId := nextId + 1;
      clock := c.createdAt;
    }

    /** `UPDATE Contact SET linkPrecedence = 'secondary', linkedId = target
        WHERE id = id`: only the row with that id changes, and only its link. */
    method SetSecondary(id: nat, target: nat)
      requires Valid()
      modifies this
      ensures Valid()
      ensures State() == old(State()).(rows := Relink(old(rows), {id}, target))
    {
      RelinkKeepsWellFormed(State(), {id}, target);
      rows := Relink(rows, {id}, target);
    }
  }
}

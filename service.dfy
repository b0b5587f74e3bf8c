/** `ContactService`: resolves a sighting against the `Contact` table, writing
    through the table one statement at a time. Each method is proved to leave the
    table and return exactly what `Resolution.Merge` and `Resolution.Identify`
    describe. */
module Service {
  import opened Contacts
  import opened Table
  import opened Response
  import opened Resolution

  /** The guard in front of the service: a request where both fields are
      missing, null or empty is refused before the service is called. */
  predicate Identifiable(email: Option<string>, phoneNumber: Option<string>) {
    Truthy(email) || Truthy(phoneNumber)
  }

  class ContactService {
    /** The database every call connects to. */
    const table: ContactTable

    constructor (table: ContactTable)
      ensures this.table == table
    {
      this.table := table;
    }

    /** `identify_contact`: fetch the rows matching the sighting, then merge
        them with the sighting or, when there are none, create a primary; the
        response is built from the resulting primary and secondaries. `tick` is
        the time elapsed since the latest insert, for the row this call may
        insert. */
    method IdentifyContact(email: Option<string>, phoneNumber: Option<string>, tick: nat)
      returns (response: Result<IdentityView>)
      requires table.Valid()
      requires Identifiable(email, phoneNumber)
      modifies table
      ensures table.Valid()
      ensures (table.State(), response) == Identify(old(table.State()), email, phoneNumber, tick)
      ensures Linked(old(table.rows)) ==> Linked(table.rows)
    {
      ghost var before := table.State();
      var contacts := Lookup(table.rows, email, phoneNumber);
      if contacts != [] {
        var merged := MergeContacts(contacts, email, phoneNumber, tick);
        match merged
        case Ok(m) =>
          response := Ok(BuildResponse(m.primary, m.secondaries));
        case Err(e) =>
          response := Err(e);
      } else {
        var primaryContact := CreatePrimaryContact(email, phoneNumber, tick);
        response := Ok(BuildResponse(primaryContact, []));
      }
      if Linked(before.rows) {
        IdentifyKeepsInvariants(before, email, phoneNumber, tick);
      }
    }

    /** `create_primary_contact`: insert a primary row without a link. */
    method CreatePrimaryContact(email: Option<string>, phoneNumber: Option<string>, tick: nat)
      returns (primaryContact: Contact)
      requires table.Valid()
      modifies table
      ensures table.Valid()
      ensures primaryContact == NewRow(old(table.State()), email, phoneNumber, Primary, None, tick)
      ensures table.State() == Add(old(table.State()), primaryContact)
    {
      primaryContact := table.Insert(email, phoneNumber, Primary, None, tick);
    }

    /** `merge_contacts`: with several primary hits, keep the oldest and demote
        the others one by one; otherwise insert the sighting as a secondary of
        the (last) primary hit, which fails when there is none. */
    method MergeContacts(contacts: seq<Contact>, email: Option<string>, phoneNumber: Option<string>, tick: nat)
      returns (merged: Result<Merged>)
      requires table.Valid()
      modifies table
      ensures table.Valid()
      ensures (table.State(), merged) == Merge(old(table.State()), contacts, email, phoneNumber, tick)
    {
      ghost var before := table.State();
      var numPrimary := |Primaries(contacts)|;
      if numPrimary > 1 {
        var primaryContacts := Primaries(contacts);
        var primaryContact := primaryContacts[Oldest(primaryContacts)];
        var idForLink := primaryContact.id;
        var secondaryContacts := DemoteOtherPrimaries(primaryContacts, idForLink, Secondaries(contacts));
        merged := Ok(Merged(primaryContact, secondaryContacts));
        assert table.State() == before.(rows := table.rows);
        MergeSeveralPrimaries(before, contacts, email, phoneNumber, tick);
      } else {
        var primaryContact, secondaryContacts := SplitHits(contacts);
        if primaryContact.None? {
          merged := Err(IdForLinkUnbound);
          MergeNoPrimary(before, contacts, email, phoneNumber, tick);
          return;
        }
        var secondContact := AddNewContactToDatabase(email, phoneNumber, primaryContact.value.id, tick);
        secondaryContacts := secondaryContacts + [secondContact];
        merged := Ok(Merged(primaryContact.value, secondaryContacts));
        MergeOnePrimary(before, contacts, email, phoneNumber, tick);
      }
    }

    /** The loop of the bridging branch: every primary hit other than the
        survivor `idForLink` is demoted in the table and appended to the
        secondaries, in fetch order. */
    method DemoteOtherPrimaries(primaryContacts: seq<Contact>, idForLink: nat, secondaries: seq<Contact>)
      returns (secondaryContacts: seq<Contact>)
      requires table.Valid()
      modifies table
      ensures table.Valid()
      ensures secondaryContacts == secondaries + Demoted(primaryContacts, idForLink)
      ensures table.State() == old(table.State()).(rows := Relink(old(table.rows), IdsOf(Demoted(primaryContacts, idForLink)), idForLink))
    {
      secondaryContacts := secondaries;
      var i := 0;
      while i < |primaryContacts|
        invariant 0 <= i <= |primaryContacts|
        invariant table.Valid()
        invariant secondaryContacts == secondaries + Demoted(primaryContacts[..i], idForLink)
        invariant table.rows == Relink(old(table.rows), IdsOf(Demoted(primaryContacts[..i], idForLink)), idForLink)
        invariant table.nextId == old(table.nextId) && table.clock == old(table.clock)
      {
        var contact := primaryContacts[i];
        assert primaryContacts[..i + 1] == primaryContacts[..i] + [contact];
        DemotedSnoc(primaryContacts[..i], contact, idForLink);
        if contact.id != idForLink {
          ghost var done := Demoted(primaryContacts[..i], idForLink);
          UpdateContactToSecondary(contact, idForLink);
          RelinkOneMore(old(table.rows), IdsOf(done), contact.id, idForLink);
          IdsOfSnoc(done, contact);
          secondaryContacts := secondaryContacts + [contact];
        }
        i := i + 1;
      }
      assert primaryContacts[..i] == primaryContacts;
    }

    /** The loop of the other branch: the secondary hits in fetch order, and
        the last primary hit met, if any. */
    method SplitHits(contacts: seq<Contact>) returns (primaryContact: Option<Contact>, secondaryContacts: seq<Contact>)
      ensures secondaryContacts == Secondaries(contacts)
      ensures primaryContact == LastPrimary(contacts)
    {
      secondaryContacts := [];
      primaryContact := None;
      var i := 0;
      while i < |contacts|
        invariant 0 <= i <= |contacts|
        invariant secondaryContacts == Secondaries(contacts[..i])
        invariant primaryContact == LastPrimary(contacts[..i])
      {
        var contact := contacts[i];
        assert contacts[..i + 1] == contacts[..i] + [contact];
        LastPrimarySnoc(contacts[..i], contact);
        FilterSnoc(contacts[..i], contact, IsSecondary);
        if contact.linkPrecedence == Primary {
          primaryContact := Some(contact);
        } else {
          secondaryContacts := secondaryContacts + [contact];
        }
        i := i + 1;
      }
      assert contacts[..i] == contacts;
    }

    /** `update_contact_to_secondary`: demote one row and link it to `linkedId`. */
    method UpdateContactToSecondary(contact: Contact, linkedId: nat)
      requires table.Valid()
      modifies table
      ensures table.Valid()
      ensures table.State() == old(table.State()).(rows := Relink(old(table.rows), {contact.id}, linkedId))
    {
      table.SetSecondary(contact.id, linkedId);
    }

    /** `add_new_contact_to_database`: insert the sighting as a secondary linked
        to `linkedId`, and return the stored row. */
    method AddNewContactToDatabase(email: Option<string>, phoneNumber: Option<string>, linkedId: nat, tick: nat)
      returns (secondary: Contact)
      requires table.Valid()
      modifies table
      ensures table.Valid()
      ensures secondary == NewRow(old(table.State()), email, phoneNumber, Secondary, Some(linkedId), tick)
      ensures table.State() == Add(old(table.State()), secondary)
    {
      secondary := table.Insert(email, phoneNumber, Secondary, Some(linkedId), tick);
    }
  }

  /** The primary the loop over the fetched rows settles on: the last primary it
      meets, if any. */
  function LastPrimary(contacts: seq<Contact>): Option<Contact> {
    var ps := Primaries(contacts);
    if ps == [] then None else Some(ps[|ps| - 1])
  }

  lemma LastPrimarySnoc(contacts: seq<Contact>, c: Contact)
    ensures LastPrimary(contacts + [c]) == if IsPrimary(c) then Some(c) else LastPrimary(contacts)
  {
    FilterSnoc(contacts, c, IsPrimary);
  }
}

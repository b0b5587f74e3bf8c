/** What `ContactService.identify_contact` and `merge_contacts` do to the table
    and what they return, as functions of the table before the call. The
    methods of `Service.ContactService` are proved to do exactly this; the
    lemmas below state what the behaviour guarantees. */
module Resolution {
  import opened Contacts
  import opened Response

  /** The one failure the service runs into on its own: when no fetched row is
      primary, `id_for_link` is read before it is assigned (an
      `UnboundLocalError`), before anything is written. */
  datatype ServiceError = IdForLinkUnbound

  datatype Result<T> = Ok(value: T) | Err(error: ServiceError)

  /** The pair `(primary_contact, secondary_contacts)` that `merge_contacts` returns. */
  datatype Merged = Merged(primary: Contact, secondaries: seq<Contact>)

  predicate IsPrimary(c: Contact) {
    c.linkPrecedence == Primary
  }

  predicate IsSecondary(c: Contact) {
    c.linkPrecedence == Secondary
  }

  /** `[contact for contact in contacts if contact["linkPrecedence"] == "primary"]` */
  function Primaries(hits: seq<Contact>): seq<Contact> {
    Filter(hits, IsPrimary)
  }

  /** `[contact for contact in contacts if contact["linkPrecedence"] == "secondary"]` */
  function Secondaries(hits: seq<Contact>): seq<Contact> {
    Filter(hits, IsSecondary)
  }

  /** The position `min(primary_contacts, key=lambda c: c["createdAt"])` picks:
      a row with the smallest creation time, and of several such rows the first,
      since `min` replaces its candidate only on a strictly smaller key. */
  function Oldest(ps: seq<Contact>): (k: nat)
    requires |ps| > 0
    ensures k < |ps|
    ensures forall j :: 0 <= j < |ps| ==> ps[k].createdAt <= ps[j].createdAt
    ensures forall j :: 0 <= j < k ==> ps[k].createdAt < ps[j].createdAt
  {
    if |ps| == 1 then 0
    else
      var k := Oldest(ps[..|ps| - 1]);
      if ps[|ps| - 1].createdAt < ps[k].createdAt then |ps| - 1 else k
  }

  /** The primaries the loop at the end of the bridging branch demotes: all but
      the one whose id is `survivorId`, in fetch order. */
  function Demoted(ps: seq<Contact>, survivorId: nat): seq<Contact> {
    Filter(ps, (c: Contact) => c.id != survivorId)
  }

  lemma DemotedSnoc(ps: seq<Contact>, x: Contact, survivorId: nat)
    ensures Demoted(ps + [x], survivorId) == Demoted(ps, survivorId) + if x.id != survivorId then [x] else []
  {
    assert (ps + [x])[..|ps|] == ps;
  }

  /** `merge_contacts(contacts, new_contact)` on the fetched rows `hits`: the
      table afterwards and the pair it returns. */
  function Merge(t: Snapshot, hits: seq<Contact>, email: Option<string>, phoneNumber: Option<string>,
                 tick: nat): (Snapshot, Result<Merged>)
  {
    var ps := Primaries(hits);
    if |ps| > 1 then
      var survivor := ps[Oldest(ps)];
      var demoted := Demoted(ps, survivor.id);
      (t.(rows := Relink(t.rows, IdsOf(demoted), survivor.id)),
       Ok(Merged(survivor, Secondaries(hits) + demoted)))
    else if ps == [] then
      (t, Err(IdForLinkUnbound))
    else
      var c := NewRow(t, email, phoneNumber, Secondary, Some(ps[0].id), tick);
      (Add(t, c), Ok(Merged(ps[0], Secondaries(hits) + [c])))
  }

  /** The three cases of `Merge`, one lemma each, so that proofs about one case
      need not unfold the others. */
  lemma MergeSeveralPrimaries(t: Snapshot, hits: seq<Contact>, email: Option<string>, phoneNumber: Option<string>, tick: nat)
    requires |Primaries(hits)| > 1
    ensures var ps := Primaries(hits);
      var s := ps[Oldest(ps)];
      Merge(t, hits, email, phoneNumber, tick) ==
        (t.(rows := Relink(t.rows, IdsOf(Demoted(ps, s.id)), s.id)), Ok(Merged(s, Secondaries(hits) + Demoted(ps, s.id))))
  {
  }

  lemma MergeOnePrimary(t: Snapshot, hits: seq<Contact>, email: Option<string>, phoneNumber: Option<string>, tick: nat)
    requires |Primaries(hits)| == 1
    ensures var p := Primaries(hits)[0];
      var c := NewRow(t, email, phoneNumber, Secondary, Some(p.id), tick);
      Merge(t, hits, email, phoneNumber, tick) == (Add(t, c), Ok(Merged(p, Secondaries(hits) + [c])))
  {
  }

  lemma MergeNoPrimary(t: Snapshot, hits: seq<Contact>, email: Option<string>, phoneNumber: Option<string>, tick: nat)
    requires Primaries(hits) == []
    ensures Merge(t, hits, email, phoneNumber, tick) == (t, Err(IdForLinkUnbound))
  {
  }

  /** `identify_contact(email, phoneNumber)`: the table afterwards and the
      response, or the error the call ends in. */
  function Identify(t: Snapshot, email: Option<string>, phoneNumber: Option<string>,
                    tick: nat): (Snapshot, Result<IdentityView>)
  {
    var hits := Lookup(t.rows, email, phoneNumber);
    if hits != [] then
      var (t', m) := Merge(t, hits, email, phoneNumber, tick);
      (t', match m
           case Ok(v) => Ok(BuildResponse(v.primary, v.secondaries))
           case Err(e) => Err(e))
    else
      var c := NewRow(t, email, phoneNumber, Primary, None, tick);
      (Add(t, c), Ok(BuildResponse(c, [])))
  }

  /** A sighting nothing matches inserts exactly one row: a primary without a
      link, carrying the sighting's email and phone number. The response names
      that row, lists no secondaries and shows each non-empty sighting value. */
  lemma FreshSightingCreatesPrimary(t: Snapshot, email: Option<string>, phoneNumber: Option<string>, tick: nat)
    requires Lookup(t.rows, email, phoneNumber) == []
    ensures var (t', r) := Identify(t, email, phoneNumber, tick);
      && |t'.rows| == |t.rows| + 1 && t'.rows[..|t.rows|] == t.rows && t'.nextId == t.nextId + 1
      && t'.rows[|t.rows|] == Contact(t.nextId, phoneNumber, email, None, Primary, t.clock + tick)
      && r.Ok?
      && r.value.primaryContactId == t.nextId
      && r.value.secondaryContactIds == []
      && r.value.emails == (if Truthy(email) then [email.value] else [])
      && r.value.phoneNumbers == (if Truthy(phoneNumber) then [phoneNumber.value] else [])
  {
    var c := NewRow(t, email, phoneNumber, Primary, None, tick);
    IdentifyFresh(t, email, phoneNumber, tick);
    ResponseOfOne(c);
    assert (t.rows + [c])[..|t.rows|] == t.rows;
  }

  /** Under the table's ordering, the oldest primary hit is the first primary
      hit in fetch order, and it has the smallest id and creation time among the
      primary hits: `min` by `createdAt` with ties going to the earlier row
      agrees with "earliest creation, then smallest id". */
  lemma SurvivorIsEarliestPrimary(rows: seq<Contact>, email: Option<string>, phoneNumber: Option<string>)
    requires InIdOrder(rows)
    requires |Primaries(Lookup(rows, email, phoneNumber))| > 0
    ensures var ps := Primaries(Lookup(rows, email, phoneNumber));
      && Oldest(ps) == 0
      && forall h :: h in ps && h != ps[0] ==> ps[0].id < h.id && ps[0].createdAt <= h.createdAt
  {
    var hits := Lookup(rows, email, phoneNumber);
    var ps := Primaries(hits);
    FilterKeepsOrder(rows, (c: Contact) => Matches(c, email, phoneNumber));
    FilterKeepsOrder(hits, IsPrimary);
    var k := Oldest(ps);
    if k > 0 {
      assert false;
    }
    forall h | h in ps && h != ps[0]
      ensures ps[0].id < h.id && ps[0].createdAt <= h.createdAt
    {
      var j :| 0 <= j < |ps| && ps[j] == h;
    }
  }

  /** Bridging sighting (more than one primary hit): no row is inserted, the
      primary hits other than the survivor become secondaries linked to it, and
      every other row keeps its values, in particular the secondaries of a
      demoted primary keep their `linkedId`. */
  lemma BridgeDemotesOnlyOtherPrimaries(t: Snapshot, email: Option<string>, phoneNumber: Option<string>, tick: nat)
    requires WellFormed(t)
    requires |Primaries(Lookup(t.rows, email, phoneNumber))| > 1
    ensures var ps := Primaries(Lookup(t.rows, email, phoneNumber));
      var survivor := ps[Oldest(ps)];
      var t' := Identify(t, email, phoneNumber, tick).0;
      && t'.nextId == t.nextId && t'.clock == t.clock && |t'.rows| == |t.rows|
      && forall k :: 0 <= k < |t.rows| ==>
        t'.rows[k] == if Matches(t.rows[k], email, phoneNumber) && IsPrimary(t.rows[k]) && t.rows[k].id != survivor.id
                      then Demote(t.rows[k], survivor.id) else t.rows[k]
  {
    var hits := Lookup(t.rows, email, phoneNumber);
    var ps := Primaries(hits);
    var s := ps[Oldest(ps)];
    var dm := Demoted(ps, s.id);
    IdentifyBridge(t, email, phoneNumber, tick);
    DemotedRows(t.rows, email, phoneNumber, s.id);
  }

  /** The rows whose ids the bridge relinks are exactly the matching primaries
      other than the survivor: ids are unique, so no other row shares one. */
  lemma DemotedRows(rows: seq<Contact>, email: Option<string>, phoneNumber: Option<string>, survivorId: nat)
    requires InIdOrder(rows)
    ensures var dm := Demoted(Primaries(Lookup(rows, email, phoneNumber)), survivorId);
      forall k :: 0 <= k < |rows| ==>
        (rows[k].id in IdsOf(dm) <==> Matches(rows[k], email, phoneNumber) && IsPrimary(rows[k]) && rows[k].id != survivorId)
  {
    var hits := Lookup(rows, email, phoneNumber);
    var dm := Demoted(Primaries(hits), survivorId);
    forall k | 0 <= k < |rows|
      ensures rows[k].id in IdsOf(dm) <==>
        Matches(rows[k], email, phoneNumber) && IsPrimary(rows[k]) && rows[k].id != survivorId
    {
      var c := rows[k];
      if c.id in IdsOf(dm) {
        var d :| d in dm && d.id == c.id;
        IdsIdentify(rows, c, d);
      }
      if Matches(c, email, phoneNumber) && IsPrimary(c) && c.id != survivorId {
        assert c in hits;
        assert c in dm;
      }
    }
  }

  /** `Identify` on a bridging sighting, as one value. */
  lemma IdentifyBridge(t: Snapshot, email: Option<string>, phoneNumber: Option<string>, tick: nat)
    requires |Primaries(Lookup(t.rows, email, phoneNumber))| > 1
    ensures var hits := Lookup(t.rows, email, phoneNumber);
      var ps := Primaries(hits);
      var survivor := ps[Oldest(ps)];
      var dm := Demoted(ps, survivor.id);
      Identify(t, email, phoneNumber, tick) ==
        (t.(rows := Relink(t.rows, IdsOf(dm), survivor.id)), Ok(BuildResponse(survivor, Secondaries(hits) + dm)))
  {
    MergeSeveralPrimaries(t, Lookup(t.rows, email, phoneNumber), email, phoneNumber, tick);
  }

  /** The demoted primaries are exactly the primary hits other than the survivor. */
  lemma DemotedAreOtherPrimaries(hits: seq<Contact>, survivorId: nat)
    ensures forall c :: c in Demoted(Primaries(hits), survivorId) <==> c in hits && IsPrimary(c) && c.id != survivorId
  {
  }

  /** Bridging sighting: the response names the survivor, and lists the
      secondary hits in fetch order followed by the demoted primaries in fetch
      order (`DemotedAreOtherPrimaries` says which those are). */
  lemma BridgeListsSecondariesThenDemoted(t: Snapshot, email: Option<string>, phoneNumber: Option<string>, tick: nat)
    requires |Primaries(Lookup(t.rows, email, phoneNumber))| > 1
    ensures var hits := Lookup(t.rows, email, phoneNumber);
      var ps := Primaries(hits);
      var survivor := ps[Oldest(ps)];
      var sh := Secondaries(hits);
      var dm := Demoted(ps, survivor.id);
      var r := Identify(t, email, phoneNumber, tick).1;
      && r.Ok? && r.value.primaryContactId == survivor.id
      && r.value.secondaryContactIds == ContactIds(sh) + ContactIds(dm)
  {
    var hits := Lookup(t.rows, email, phoneNumber);
    var ps := Primaries(hits);
    var survivor := ps[Oldest(ps)];
    var sh := Secondaries(hits);
    var dm := Demoted(ps, survivor.id);
    IdentifyBridge(t, email, phoneNumber, tick);
    ContactIdsAppend(sh, dm);
  }

  /** A sighting whose hits hold exactly one primary inserts one new row: a
      secondary linked to that primary, with the sighting's email and phone
      number. Nothing is checked first, so this happens even when a row with the
      same pair already exists. The new row comes last in the response. */
  lemma SinglePrimaryAddsSecondary(t: Snapshot, email: Option<string>, phoneNumber: Option<string>, tick: nat)
    requires |Primaries(Lookup(t.rows, email, phoneNumber))| == 1
    ensures var hits := Lookup(t.rows, email, phoneNumber);
      var p := Primaries(hits)[0];
      var sh := Secondaries(hits);
      var (t', r) := Identify(t, email, phoneNumber, tick);
      && t'.rows == t.rows + [Contact(t.nextId, phoneNumber, email, Some(p.id), Secondary, t.clock + tick)]
      && t'.nextId == t.nextId + 1
      && r.Ok? && r.value.primaryContactId == p.id
      && r.value.secondaryContactIds == ContactIds(sh) + [t.nextId]
  {
    var hits := Lookup(t.rows, email, phoneNumber);
    var p := Primaries(hits)[0];
    IdentifyOnePrimary(t, email, phoneNumber, tick);
    SecondaryInsert(t, p, Secondaries(hits), email, phoneNumber, tick);
  }

  /** Inserting the sighting as a secondary of `p`: the row it appends, and the
      ids the response for `p` then lists. */
  lemma SecondaryInsert(t: Snapshot, p: Contact, sh: seq<Contact>,
                        email: Option<string>, phoneNumber: Option<string>, tick: nat)
    ensures var c := NewRow(t, email, phoneNumber, Secondary, Some(p.id), tick);
      var ids := BuildResponse(p, sh + [c]).secondaryContactIds;
      && Add(t, c).rows == t.rows + [Contact(t.nextId, phoneNumber, email, Some(p.id), Secondary, t.clock + tick)]
      && Add(t, c).nextId == t.nextId + 1
      && BuildResponse(p, sh + [c]).primaryContactId == p.id
      && ids == ContactIds(sh) + [t.nextId]
  {
    var c := NewRow(t, email, phoneNumber, Secondary, Some(p.id), tick);
    ContactIdsAppend(sh, [c]);
    assert ContactIds([c]) == [t.nextId];
  }

  /** Sending the same new sighting twice does not settle: the first call
      inserts a primary and the second, finding only that primary, inserts a
      secondary with the very same email and phone number. */
  lemma RepeatedSightingAddsSecondary(t: Snapshot, t1: Snapshot, email: Option<string>, phoneNumber: Option<string>,
                                      tick1: nat, tick2: nat)
    requires Lookup(t.rows, email, phoneNumber) == []
    requires email.Some? || phoneNumber.Some?
    requires t1 == Identify(t, email, phoneNumber, tick1).0
    ensures var (t2, r2) := Identify(t1, email, phoneNumber, tick2);
      && t2.rows == t.rows + [
           Contact(t.nextId, phoneNumber, email, None, Primary, t.clock + tick1),
           Contact(t.nextId + 1, phoneNumber, email, Some(t.nextId), Secondary, t.clock + tick1 + tick2)]
      && r2.Ok? && r2.value.primaryContactId == t.nextId
      && r2.value.secondaryContactIds == [t.nextId + 1]
  {
    var c := NewRow(t, email, phoneNumber, Primary, None, tick1);
    IdentifyFresh(t, email, phoneNumber, tick1);
    OnlyNewRowMatches(t, c, email, phoneNumber);
    IdentifyOnePrimary(t1, email, phoneNumber, tick2);
    TwoInserts(t, email, phoneNumber, tick1, tick2);
    ResponseOfPair(c, NewRow(t1, email, phoneNumber, Secondary, Some(c.id), tick2));
  }

  /** A primary inserted for a sighting, then a secondary of it for the same
      sighting: the ids they get and the rows they leave. */
  lemma TwoInserts(t: Snapshot, email: Option<string>, phoneNumber: Option<string>, tick1: nat, tick2: nat)
    ensures var c := NewRow(t, email, phoneNumber, Primary, None, tick1);
      var t1 := Add(t, c);
      var c2 := NewRow(t1, email, phoneNumber, Secondary, Some(c.id), tick2);
      && c.id == t.nextId && c2.id == t.nextId + 1
      && Add(t1, c2).rows == t.rows + [
           Contact(t.nextId, phoneNumber, email, None, Primary, t.clock + tick1),
           Contact(t.nextId + 1, phoneNumber, email, Some(t.nextId), Secondary, t.clock + tick1 + tick2)]
  {
    var c := NewRow(t, email, phoneNumber, Primary, None, tick1);
    AppendTwo(t.rows, c, NewRow(Add(t, c), email, phoneNumber, Secondary, Some(c.id), tick2));
  }

  /** The response naming a primary and one secondary. */
  lemma ResponseOfPair(p: Contact, c: Contact)
    ensures BuildResponse(p, [] + [c]).primaryContactId == p.id
    ensures BuildResponse(p, [] + [c]).secondaryContactIds == [c.id]
  {
    assert [] + [c] == [c];
    assert ContactIds([c]) == [c.id];
  }

  lemma AppendTwo<T>(s: seq<T>, x: T, y: T)
    ensures s + [x] + [y] == s + [x, y]
  {
  }

  /** `Identify` on a sighting nothing matches, as one value. */
  lemma IdentifyFresh(t: Snapshot, email: Option<string>, phoneNumber: Option<string>, tick: nat)
    requires Lookup(t.rows, email, phoneNumber) == []
    ensures var c := NewRow(t, email, phoneNumber, Primary, None, tick);
      Identify(t, email, phoneNumber, tick) == (Add(t, c), Ok(BuildResponse(c, [])))
  {
  }

  /** `Identify` on a sighting whose hits hold exactly one primary, as one value. */
  lemma IdentifyOnePrimary(t: Snapshot, email: Option<string>, phoneNumber: Option<string>, tick: nat)
    requires |Primaries(Lookup(t.rows, email, phoneNumber))| == 1
    ensures var hits := Lookup(t.rows, email, phoneNumber);
      var p := Primaries(hits)[0];
      var c := NewRow(t, email, phoneNumber, Secondary, Some(p.id), tick);
      Identify(t, email, phoneNumber, tick) == (Add(t, c), Ok(BuildResponse(p, Secondaries(hits) + [c])))
  {
    MergeOnePrimary(t, Lookup(t.rows, email, phoneNumber), email, phoneNumber, tick);
  }

  /** `Identify` on a sighting whose hits hold no primary, as one value. */
  lemma IdentifyNoPrimary(t: Snapshot, email: Option<string>, phoneNumber: Option<string>, tick: nat)
    requires Lookup(t.rows, email, phoneNumber) != []
    requires Primaries(Lookup(t.rows, email, phoneNumber)) == []
    ensures Identify(t, email, phoneNumber, tick) == (t, Err(IdForLinkUnbound))
  {
    MergeNoPrimary(t, Lookup(t.rows, email, phoneNumber), email, phoneNumber, tick);
  }

  /** The response for a lone primary shows its non-empty values and no secondaries. */
  lemma ResponseOfOne(c: Contact)
    ensures BuildResponse(c, []) == IdentityView(c.id,
      if Truthy(c.email) then [c.email.value] else [],
      if Truthy(c.phoneNumber) then [c.phoneNumber.value] else [],
      [])
  {
    assert [c] + [] == [c];
    assert Emails([c]) == [c.email];
    assert PhoneNumbers([c]) == [c.phoneNumber];
    PresentValuesOfOne(c.email);
    PresentValuesOfOne(c.phoneNumber);
    DistinctOfShort(PresentValues([c.email]));
    DistinctOfShort(PresentValues([c.phoneNumber]));
  }

  /** After a fresh sighting is stored, the same sighting matches only that row. */
  lemma OnlyNewRowMatches(t: Snapshot, c: Contact, email: Option<string>, phoneNumber: Option<string>)
    requires Lookup(t.rows, email, phoneNumber) == []
    requires c.email == email && c.phoneNumber == phoneNumber && c.linkPrecedence == Primary
    requires email.Some? || phoneNumber.Some?
    ensures Lookup(t.rows + [c], email, phoneNumber) == [c]
    ensures Primaries([c]) == [c] && Secondaries([c]) == []
  {
    FilterSnoc(t.rows, c, (c: Contact) => Matches(c, email, phoneNumber));
  }

  /** When every hit is a secondary, the call fails and the table is untouched. */
  lemma SecondaryOnlyHitsFail(t: Snapshot, email: Option<string>, phoneNumber: Option<string>, tick: nat)
    requires Lookup(t.rows, email, phoneNumber) != []
    requires forall c :: c in Lookup(t.rows, email, phoneNumber) ==> IsSecondary(c)
    ensures Identify(t, email, phoneNumber, tick) == (t, Err(IdForLinkUnbound))
  {
    FilterNone(Lookup(t.rows, email, phoneNumber), IsPrimary);
    IdentifyNoPrimary(t, email, phoneNumber, tick);
  }

  /** Every call keeps the table well formed and keeps every link pointing at
      an existing, older row: a secondary links to a row with a smaller id, so
      following links always ends at a primary. */
  lemma IdentifyKeepsInvariants(t: Snapshot, email: Option<string>, phoneNumber: Option<string>, tick: nat)
    requires WellFormed(t) && Linked(t.rows)
    ensures var t' := Identify(t, email, phoneNumber, tick).0;
      WellFormed(t') && Linked(t'.rows)
  {
    var hits := Lookup(t.rows, email, phoneNumber);
    var ps := Primaries(hits);
    if hits == [] || |ps| == 1 {
      var c := if hits == [] then NewRow(t, email, phoneNumber, Primary, None, tick)
               else NewRow(t, email, phoneNumber, Secondary, Some(ps[0].id), tick);
      assert Identify(t, email, phoneNumber, tick).0 == Add(t, c);
      AddKeepsWellFormed(t, email, phoneNumber, c.linkPrecedence, c.linkedId, tick);
      if hits != [] {
        assert ps[0] in ps;
        assert ps[0].id in IdsOf(t.rows);
      }
      LinkedAfterAdd(t, c);
    } else if |ps| > 1 {
      var s := ps[Oldest(ps)];
      var dm := Demoted(ps, s.id);
      var rows' := Relink(t.rows, IdsOf(dm), s.id);
      assert Identify(t, email, phoneNumber, tick).0 == t.(rows := rows');
      RelinkKeepsWellFormed(t, IdsOf(dm), s.id);
      SurvivorIsEarliestPrimary(t.rows, email, phoneNumber);
      assert s in ps;
      RelinkKeepsIds(t.rows, IdsOf(dm), s.id);
      forall k | 0 <= k < |rows'|
        ensures LinkOk(rows'[k], rows')
      {
        var c := t.rows[k];
        assert LinkOk(c, t.rows);
        if c.id in IdsOf(dm) {
          var d :| d in dm && d.id == c.id;
          assert d in ps && d != ps[0];
        }
      }
    }
  }

  lemma LinkedAfterAdd(t: Snapshot, c: Contact)
    requires WellFormed(t) && Linked(t.rows)
    requires c.id == t.nextId
    requires c.linkPrecedence == Secondary <==> c.linkedId.Some?
    requires c.linkedId.Some? ==> c.linkedId.value in IdsOf(t.rows)
    ensures Linked(Add(t, c).rows)
  {
    var rows' := t.rows + [c];
    assert IdsOf(t.rows) <= IdsOf(rows');
    if c.linkedId.Some? {
      var d :| d in t.rows && d.id == c.linkedId.value;
    }
    forall k | 0 <= k < |rows'|
      ensures LinkOk(rows'[k], rows')
    {
      if k < |t.rows| {
        assert LinkOk(t.rows[k], t.rows);
      }
    }
  }

  lemma RelinkKeepsIds(rows: seq<Contact>, ids: set<nat>, target: nat)
    ensures IdsOf(Relink(rows, ids, target)) == IdsOf(rows)
  {
    var rows' := Relink(rows, ids, target);
    forall i | i in IdsOf(rows) ensures i in IdsOf(rows') {
      var c :| c in rows && c.id == i;
      var k :| 0 <= k < |rows| && rows[k] == c;
      assert rows'[k] in rows';
    }
    forall i | i in IdsOf(rows') ensures i in IdsOf(rows) {
      var c :| c in rows' && c.id == i;
      var k :| 0 <= k < |rows'| && rows'[k] == c;
      assert rows[k] in rows;
    }
  }

  /** `t'` keeps the history of `t`: rows are never deleted, at most one is
      added, no row's id, email, phone number or creation time changes, and a
      row that is already secondary does not change at all. */
  predicate KeepsHistory(t: Snapshot, t': Snapshot) {
    && |t.rows| <= |t'.rows| <= |t.rows| + 1
    && forall k :: 0 <= k < |t.rows| ==>
      && t'.rows[k].id == t.rows[k].id
      && t'.rows[k].email == t.rows[k].email
      && t'.rows[k].phoneNumber == t.rows[k].phoneNumber
      && t'.rows[k].createdAt == t.rows[k].createdAt
      && (IsSecondary(t.rows[k]) ==> t'.rows[k] == t.rows[k])
  }

  /** Every call keeps the table's history. */
  lemma IdentifyKeepsHistory(t: Snapshot, email: Option<string>, phoneNumber: Option<string>, tick: nat)
    requires WellFormed(t)
    ensures KeepsHistory(t, Identify(t, email, phoneNumber, tick).0)
  {
    var hits := Lookup(t.rows, email, phoneNumber);
    var ps := Primaries(hits);
    if hits == [] {
      IdentifyFresh(t, email, phoneNumber, tick);
      AddKeepsHistory(t, NewRow(t, email, phoneNumber, Primary, None, tick));
    } else if |ps| > 1 {
      BridgeDemotesOnlyOtherPrimaries(t, email, phoneNumber, tick);
      DemotingPrimariesKeepsHistory(t, Identify(t, email, phoneNumber, tick).0, ps[Oldest(ps)].id);
    } else if |ps| == 1 {
      IdentifyOnePrimary(t, email, phoneNumber, tick);
      AddKeepsHistory(t, NewRow(t, email, phoneNumber, Secondary, Some(ps[0].id), tick));
    } else {
      IdentifyNoPrimary(t, email, phoneNumber, tick);
    }
  }

  lemma AddKeepsHistory(t: Snapshot, c: Contact)
    ensures KeepsHistory(t, Add(t, c))
  {
    assert forall k :: 0 <= k < |t.rows| ==> Add(t, c).rows[k] == t.rows[k];
  }

  lemma DemotingPrimariesKeepsHistory(t: Snapshot, t': Snapshot, target: nat)
    requires |t'.rows| == |t.rows|
    requires forall k :: 0 <= k < |t.rows| ==>
      t'.rows[k] == t.rows[k] || (IsPrimary(t.rows[k]) && t'.rows[k] == Demote(t.rows[k], target))
    ensures KeepsHistory(t, t')
  {
  }
}

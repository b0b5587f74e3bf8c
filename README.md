# ContactService identity resolution, modelled in Dafny

This project models `ContactService` of the BiteSpeed identity-reconciliation
service. A client reports a sighting: an email and a phone number, either of
which may be missing. The service looks up every stored `Contact` row that
shares the email or the phone number. It then does one of three things:

- creates a new primary row when nothing matches;
- demotes all but the oldest matching primary when the sighting bridges
  several primaries;
- stores the sighting as a new secondary of the one matching primary.

The service answers with the identity view: the primary id, the emails and
phone numbers, and the secondary ids.

Layout:

- `contacts.dfy` (module `Contacts`): the `Contact` row, the `email = %s OR
  phoneNumber = %s` lookup with SQL NULL semantics, the relink that the UPDATE
  performs, and the table invariants. Ids increase in fetch order and
  `createdAt` never decreases. Every secondary links to an older, existing row.
- `table.dfy` (module `Table`): the class `ContactTable`. It holds the rows,
  the `AUTO_INCREMENT` counter and a clock. It has one method per SQL write the
  service issues: INSERT, then a fetch of the new row; and UPDATE to
  secondary.
- `response.dfy` (module `Response`): `build_response` as pure functions.
  Falsy values are dropped, and `OrderedDict.fromkeys` becomes `Distinct`,
  which keeps the first occurrence of each value.
- `resolution.dfy` (module `Resolution`): `Merge` and `Identify` are reference
  functions. They give the table after a call and the response, as functions
  of the table before the call. The lemmas about them state what the service
  guarantees.
- `service.dfy` (module `Service`): the class `ContactService`, with the
  Python class's state-changing methods. `build_response` is not a method
  here: it is the pure function `Response.BuildResponse`. The two loops of
  `merge_contacts` are kept, each in a method of its own: `DemoteOtherPrimaries`
  for the bridging branch and `SplitHits` for the other branch. Each method is
  proved to leave the table and return exactly what `Merge` and `Identify`
  describe.

The model follows the code where it departs from the intended design:

- A bridge demotes the younger primaries only. Secondaries already linked to a
  demoted primary keep pointing at it, so link chains form. Every link still
  points at an older row, so following links always ends at a primary.
- Nothing checks for an existing (email, phone) pair. The same sighting sent
  twice adds a second row (`RepeatedSightingAddsSecondary`).
- When every matching row is a secondary, `id_for_link` is never bound. The
  call ends with an error before it writes anything (`SecondaryOnlyHitsFail`).
- The response covers only the rows the sighting matched, plus the row it
  inserted. The rest of the cluster is not re-read.
- The surviving primary is the first of the matching primaries with the least
  `createdAt` in fetch order (`Oldest`). Fetch order is modelled as insertion
  order, so this is also the primary with the smallest id
  (`SurvivorIsEarliestPrimary`).
- In the single-primary branch, the loop keeps the last primary it meets. It
  only runs when there is at most one primary hit (`LastPrimary`).

`createdAt` comes from a store clock. Each insert advances the clock by a
caller-supplied `tick: nat`, which stands in for the wall-clock time elapsed.
Two rows can therefore share a creation time.

## Model

| member | source | states |
|---|---|---|
| Contacts.Lookup | services.py:17-20 | A row is fetched iff its email equals the sighting's non-null email or its phone number equals the sighting's non-null phone number; a NULL on either side never matches |
| Contacts.Filter | services.py:88-97 | The kept elements are exactly those satisfying the predicate, and there are no more of them than inputs |
| Contacts.FilterKeepsOrder | services.py:88-97 | Filtering rows that are in id order with nondecreasing `createdAt` keeps them in that order |
| Contacts.Demote | services.py:137 | No contract of its own; `Table.ContactTable.SetSecondary` and `Resolution.BridgeDemotesOnlyOtherPrimaries` state its effect: the row becomes secondary, linked to the target, with everything else kept |
| Contacts.Relink | services.py:104-107 | No contract of its own; `Resolution.BridgeDemotesOnlyOtherPrimaries` states its effect: exactly the rows with the given ids are demoted and linked to the target, and the other rows stay as they were |
| Contacts.NewRow | services.py:56-62 | No contract of its own; `Table.ContactTable.Insert` and `Contacts.AddKeepsWellFormed` state its effect: the row carries the next `AUTO_INCREMENT` id, the sighting's values and the current time |
| Contacts.Add | services.py:163-180 | No contract of its own; `Contacts.AddKeepsWellFormed` and `Resolution.IdentifyKeepsHistory` state its effect: the row is appended last, the counter advances, and the earlier rows stay as they were |
| Contacts.AddKeepsWellFormed | models.py:20-25 | An insert with the next `AUTO_INCREMENT` id and the current time keeps ids increasing and creation times nondecreasing, and leaves the earlier rows as they were |
| Contacts.RelinkKeepsWellFormed | services.py:137-138 | Demoting rows keeps the table's id order and creation times |
| Table.ContactTable.constructor | models.py:19-28 | A freshly created table is empty, hands out id 1 first and keeps its invariant |
| Table.ContactTable.Insert | services.py:56-62 | The new row gets the next id and the sighting's values, is appended last, and the invariant is kept |
| Table.ContactTable.SetSecondary | services.py:137-139 | Only the row with the given id changes: it becomes secondary, linked to the target |
| Response.PresentValuesAreTheTruthyOnes | services.py:209-214 | The falsy-value filter keeps exactly the non-empty values present in the input, and a truthy first value comes first |
| Response.PresentValues | services.py:209-214 | No contract of its own; `Response.PresentValuesAreTheTruthyOnes` and `Response.PresentValuesKeepFirstOccurrenceOrder` state its behaviour |
| Response.Distinct | services.py:207-216 | No contract of its own; `Response.DistinctKeepsEachValueOnce` and `Response.DistinctKeepsFirstOccurrenceOrder` state its behaviour |
| Response.DistinctKeepsEachValueOnce | services.py:207-216 | The `OrderedDict.fromkeys` dedup has no duplicates, holds exactly the input's values, and starts with the input's first value |
| Response.DistinctKeepsFirstOccurrenceOrder | services.py:207-216 | Values appear in the order of their first occurrence in the input |
| Response.ResponseDescribesCluster | services.py:204-229 | The primary id is the primary's; the secondary ids are the secondaries' ids in order, with repeats kept; emails and phone numbers are duplicate-free, hold exactly the non-empty values of the primary and the secondaries, and list them in the order in which the rows `[primary] + secondaries` first carry them, so the primary's own value comes first |
| Response.BuildResponse | services.py:191-236 | No contract of its own; `Response.ResponseDescribesCluster` states its behaviour |
| Response.PresentValuesKeepFirstOccurrenceOrder | services.py:209-214 | Dropping falsy values keeps the relative order of the values kept, measured by first occurrence |
| Response.ColumnListsEachValueOnce | services.py:207-216 | One response column holds each non-empty value of the column once, a truthy first value first, and lists the values in the order of their first occurrence in the column |
| Resolution.Oldest | services.py:99-101 | The chosen primary has the least `createdAt`, and every earlier one in fetch order has a strictly greater `createdAt`, so ties go to the first |
| Resolution.Merge | services.py:73-126 | No contract of its own; `Resolution.BridgeDemotesOnlyOtherPrimaries`, `Resolution.BridgeListsSecondariesThenDemoted`, `Resolution.SinglePrimaryAddsSecondary` and `Resolution.SecondaryOnlyHitsFail` state its behaviour in each branch, and `Service.ContactService.MergeContacts` is proved equal to it |
| Resolution.Identify | services.py:7-44 | No contract of its own; `Resolution.FreshSightingCreatesPrimary`, the branch lemmas of `Merge`, `Resolution.IdentifyKeepsInvariants` and `Resolution.IdentifyKeepsHistory` state its behaviour, and `Service.ContactService.IdentifyContact` is proved equal to it |
| Resolution.FreshSightingCreatesPrimary | services.py:25-36 | A sighting with no hits appends exactly one unlinked primary row carrying the sighting's values; the response names it, lists no secondaries and shows the non-empty sighting values |
| Resolution.SurvivorIsEarliestPrimary | services.py:99-101 | In fetch (id) order, the survivor is the first primary hit, with the smallest id and no later creation time than any other primary hit |
| Resolution.BridgeDemotesOnlyOtherPrimaries | services.py:84-107 | With several primary hits, exactly the matching primaries other than the survivor become secondaries linked to it; every other row, including the demoted primaries' own secondaries, is unchanged; nothing is inserted |
| Resolution.BridgeListsSecondariesThenDemoted | services.py:93-107 | With several primary hits, the response names the survivor, and its secondary ids are the ids of the secondary hits in fetch order followed by the ids of the demoted primaries in fetch order |
| Resolution.DemotedAreOtherPrimaries | services.py:88-92 | The demoted primaries are exactly the primary hits whose id differs from the survivor's |
| Resolution.DemotedRows | services.py:104-106 | In a table with unique ids, the rows the bridge relinks are exactly the matching primaries other than the survivor |
| Resolution.SinglePrimaryAddsSecondary | services.py:109-124 | With exactly one primary hit, exactly one row is appended: a secondary with the sighting's values, the next id, linked to that primary; the response names that primary and lists the secondary hits' ids in fetch order, then the new id |
| Resolution.RepeatedSightingAddsSecondary | services.py:113-124 | The same new sighting sent twice leaves two rows, a primary and a secondary with the same values; there is no duplicate check |
| Resolution.SecondaryOnlyHitsFail | services.py:113-121 | When every hit is a secondary, the call fails and the table is unchanged |
| Resolution.IdentifyKeepsInvariants | services.py:7-44 | Every call keeps ids increasing, creation times nondecreasing, and every secondary linked to an older, existing row |
| Resolution.IdentifyKeepsHistory | services.py:7-44 | At most one row is added, none is removed, no existing row's id, email, phone number or creation time changes, and a row that is already secondary does not change at all |
| Service.ContactService.IdentifyContact | services.py:7-44 | Requires the handler's guard (app.py:26-27); the table afterwards and the response are those `Identify` gives, and the link invariant is kept |
| Service.ContactService.CreatePrimaryContact | services.py:46-71 | Appends an unlinked primary row carrying the sighting's values and returns it |
| Service.ContactService.MergeContacts | services.py:73-126 | The loops leave the table and return exactly what `Merge` gives, including the failure when no hit is primary |
| Service.ContactService.DemoteOtherPrimaries | services.py:103-107 | Every primary hit other than the survivor is demoted in the table and appended to the secondaries, in fetch order; nothing else in the table changes |
| Service.ContactService.SplitHits | services.py:111-118 | The loop collects the secondary hits in fetch order and settles on the last primary hit, if any |
| Service.LastPrimary | services.py:113-116 | No contract of its own; `Service.ContactService.SplitHits` states that its loop settles on this primary |
| Service.ContactService.UpdateContactToSecondary | services.py:128-147 | Only the given row changes: it becomes a secondary linked to the target |
| Service.ContactService.AddNewContactToDatabase | services.py:149-189 | Appends a secondary row with the sighting's values, linked to the target, and returns it |

## Left out

- Connections, `commit`, cursors, `print` and `logging` calls, and the
  `try/except ... raise` wrappers: these carry no logic. Each write is one
  state change of `ContactTable`.
- Storage failures and exceptions raised by the MySQL driver: not modelled.
  The only error modelled is the unbound `id_for_link` at services.py:121.
- Concurrency and transactions: each write commits on its own. The model runs
  one call at a time.
- `updatedAt` and `deletedAt`: the service never reads them.
- Real timestamps: `createdAt` is a store clock advanced by a caller-supplied
  `tick`, so it never decreases as ids grow. A wall-clock `TIMESTAMP` can go
  backwards, for example after a clock reset or a daylight-saving fall-back in
  the session time zone. Then `min` at services.py:100 can pick a younger
  primary and link an older row to it. `SurvivorIsEarliestPrimary`, the
  "links point at older rows" part of `Linked`, and the claim that following
  links always ends at a primary rely on this and are not promised for such
  a clock.
- SQL row order: without `ORDER BY`, the database may return rows in any
  order. The model fixes fetch order to insertion order.
- Contacts.Lookup: compares strings exactly (binary equality). The server's default
  collation applies to `email = %s` and `phoneNumber = %s`, because neither the
  table nor the connection sets one. Default MySQL/MariaDB collations ignore case
  and accents, so `A@x.com` would find a row holding `a@x.com` where the model
  finds none. Whether trailing spaces are padded (PAD SPACE or NO PAD) depends
  on the server version's default collation. A value longer than `VARCHAR(255)`
  is rejected with an error or truncated, depending on `sql_mode`. None of this is
  modelled. The response's dedup compares exactly in both the code and the
  model.
- Values that are not strings or null (for example a numeric `phoneNumber` in
  the JSON body): not modelled.
- `config.py` (connection settings) is not part of this model.
- The DDL in `models.py` is used only for the row's columns and for ids
  starting at 1.
- Flask routing, JSON parsing and status codes in `app.py` are not part of
  this model. The handler's guard is kept as the precondition
  `Identifiable`.
- Re-reading the whole cluster and relinking the secondaries of a demoted
  primary are not done by the code, so the model does not do them either.

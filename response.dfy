/** `ContactService.build_response`: the identity view returned to the client. */
module Response {
  import opened Contacts

  /** The `"contact"` object of the response. */
  datatype IdentityView = IdentityView(
    primaryContactId: nat,
    emails: seq<string>,
    phoneNumbers: seq<string>,
    secondaryContactIds: seq<nat>)

  /** Python truthiness of a string column: neither NULL nor empty. */
  predicate Truthy(v: Option<string>) {
    v.Some? && v.value != ""
  }

  predicate NoDuplicates<T(==)>(s: seq<T>) {
    forall i, j :: 0 <= i < j < |s| ==> s[i] != s[j]
  }

  /** `[v for v in values if v]`: the non-empty values, in order. */
  function PresentValues(values: seq<Option<string>>): seq<string> {
    if values == [] then []
    else (if Truthy(values[0]) then [values[0].value] else []) + PresentValues(values[1..])
  }

  /** The present values are exactly the non-empty ones, and a truthy first
      value comes first. */
  lemma {:induction false} PresentValuesAreTheTruthyOnes(values: seq<Option<string>>)
    ensures var r := PresentValues(values);
      && (forall x :: x in r <==> x != "" && Some(x) in values)
      && (|values| > 0 && Truthy(values[0]) ==> |r| > 0 && r[0] == values[0].value)
  {
    if values != [] {
      PresentValuesAreTheTruthyOnes(values[1..]);
      assert values == [values[0]] + values[1..];
    }
  }

  /** `list(OrderedDict.fromkeys(s))`: every value once, at the place where it
      first occurs. Keys are inserted from left to right and a key already present
      keeps its place. */
  function Distinct<T(==)>(s: seq<T>): seq<T> {
    if s == [] then []
    else
      var init := Distinct(s[..|s| - 1]);
      if s[|s| - 1] in init then init else init + [s[|s| - 1]]
  }

  /** `Distinct` keeps every value of its input exactly once, and the first
      value first. */
  lemma {:induction false} DistinctKeepsEachValueOnce<T(!new)>(s: seq<T>)
    ensures var r := Distinct(s);
      && NoDuplicates(r)
      && (forall x :: x in r <==> x in s)
      && (|s| > 0 ==> |r| > 0 && r[0] == s[0])
  {
    if s != [] {
      DistinctKeepsEachValueOnce(s[..|s| - 1]);
      assert s == s[..|s| - 1] + [s[|s| - 1]];
    }
  }

  lemma PresentValuesOfOne(v: Option<string>)
    ensures PresentValues([v]) == if Truthy(v) then [v.value] else []
  {
    assert [v][1..] == [];
  }

  lemma DistinctOfShort<T(!new)>(s: seq<T>)
    requires |s| <= 1
    ensures Distinct(s) == s
  {
    if |s| == 1 {
      assert s[..0] == [];
    }
  }

  /** The position of the first occurrence of `x` in `s`. */
  function FirstIndex<T(==)>(s: seq<T>, x: T): (i: nat)
    requires x in s
    ensures i < |s| && s[i] == x && x !in s[..i]
  {
    if s[0] == x then 0 else 1 + FirstIndex(s[1..], x)
  }

  lemma FirstIndexInPrefix<T>(s: seq<T>, n: nat, x: T)
    requires n <= |s| && x in s[..n]
    ensures FirstIndex(s, x) == FirstIndex(s[..n], x)
  {
    var i, j := FirstIndex(s, x), FirstIndex(s[..n], x);
    assert s[..n][..j] == s[..j];
  }

  /** `Distinct` lists the values in the order of their first occurrences, so
      together with its contract it keeps exactly the first occurrence of each
      value and drops the later ones. */
  lemma {:induction false} DistinctKeepsFirstOccurrenceOrder<T(!new)>(s: seq<T>)
    ensures forall i, j :: 0 <= i < j < |Distinct(s)| ==>
      Distinct(s)[i] in s && Distinct(s)[j] in s &&
      FirstIndex(s, Distinct(s)[i]) < FirstIndex(s, Distinct(s)[j])
  {
    DistinctKeepsEachValueOnce(s);
    if s != [] {
      var n := |s| - 1;
      var init := s[..n];
      var r0 := Distinct(init);
      DistinctKeepsFirstOccurrenceOrder(init);
      DistinctKeepsEachValueOnce(init);
      forall y | y in r0
        ensures FirstIndex(s, y) == FirstIndex(init, y) < n
      {
        FirstIndexInPrefix(s, n, y);
      }
      if s[n] !in r0 {
        var r := r0 + [s[n]];
        assert s[n] !in s[..n];
        assert FirstIndex(s, s[n]) == n;
        forall i, j | 0 <= i < j < |r|
          ensures FirstIndex(s, r[i]) < FirstIndex(s, r[j])
        {
          assert r[i] == r0[i] && r0[i] in r0;
          if j < |r0| {
            assert r[j] == r0[j] && r0[j] in r0;
          }
        }
      }
    }
  }

  /** Dropping the falsy values keeps the order of the values kept: of two
      kept values, the one that occurs first in the output is the one whose
      first occurrence in the input comes first. */
  lemma {:induction false} PresentValuesKeepFirstOccurrenceOrder(values: seq<Option<string>>)
    ensures var pv := PresentValues(values);
      forall x, y :: x in pv && y in pv ==>
        && Some(x) in values && Some(y) in values
        && (FirstIndex(pv, x) < FirstIndex(pv, y) <==> FirstIndex(values, Some(x)) < FirstIndex(values, Some(y)))
  {
    if values != [] {
      var rest := values[1..];
      var pv, pr := PresentValues(values), PresentValues(rest);
      PresentValuesKeepFirstOccurrenceOrder(rest);
      PresentValuesAreTheTruthyOnes(values);
      PresentValuesAreTheTruthyOnes(rest);
      if Truthy(values[0]) {
        var a := values[0].value;
        assert pv == [a] + pr;
        forall x | x in pv && x != a
          ensures x in pr && FirstIndex(pv, x) == 1 + FirstIndex(pr, x)
          ensures Some(x) in rest && FirstIndex(values, Some(x)) == 1 + FirstIndex(rest, Some(x))
        {
          assert pv[1..] == pr;
        }
      } else {
        assert pv == pr;
        forall x | x in pv
          ensures Some(x) in rest && FirstIndex(values, Some(x)) == 1 + FirstIndex(rest, Some(x))
        {
        }
      }
    }
  }

  /** One column of the response: the non-empty values of `values`, each
      once, a truthy first value first, and in the order of their first
      occurrences in `values`. */
  lemma ColumnListsEachValueOnce(values: seq<Option<string>>)
    ensures var r := Distinct(PresentValues(values));
      && NoDuplicates(r)
      && (forall x :: x in r <==> x != "" && Some(x) in values)
      && (|values| > 0 && Truthy(values[0]) ==> |r| > 0 && r[0] == values[0].value)
      && (forall i, j :: 0 <= i < j < |r| ==>
            && Some(r[i]) in values && Some(r[j]) in values
            && FirstIndex(values, Some(r[i])) < FirstIndex(values, Some(r[j])))
  {
    var pv := PresentValues(values);
    var r := Distinct(pv);
    PresentValuesAreTheTruthyOnes(values);
    DistinctKeepsEachValueOnce(pv);
    DistinctKeepsFirstOccurrenceOrder(pv);
    PresentValuesKeepFirstOccurrenceOrder(values);
    forall i, j | 0 <= i < j < |r|
      ensures Some(r[i]) in values && Some(r[j]) in values
      ensures FirstIndex(values, Some(r[i])) < FirstIndex(values, Some(r[j]))
    {
      var x, y := r[i], r[j];
      assert x in pv && y in pv && FirstIndex(pv, x) < FirstIndex(pv, y);
    }
  }

  /** The email column of each row, in order. */
  function Emails(cs: seq<Contact>): seq<Option<string>>
  {
    seq(|cs|, i requires 0 <= i < |cs| => cs[i].email)
  }

  /** The phone number column of each row, in order. */
  function PhoneNumbers(cs: seq<Contact>): seq<Option<string>>
  {
    seq(|cs|, i requires 0 <= i < |cs| => cs[i].phoneNumber)
  }

  /** The id of each row, in order. */
  function ContactIds(cs: seq<Contact>): seq<nat>
  {
    seq(|cs|, i requires 0 <= i < |cs| => cs[i].id)
  }

  lemma ContactIdsAppend(a: seq<Contact>, b: seq<Contact>)
    ensures ContactIds(a + b) == ContactIds(a) + ContactIds(b)
  {
    assert forall i :: 0 <= i < |b| ==> (a + b)[|a| + i] == b[i];
  }

  /** The view of one primary and its listed secondaries: the primary's id,
      its and the secondaries' non-empty emails and phone numbers, each once,
      and the secondaries' ids. */
  function BuildResponse(primary: Contact, secondaries: seq<Contact>): IdentityView {
    var all := [primary] + secondaries;
    IdentityView(
      primary.id,
      Distinct(PresentValues(Emails(all))),
      Distinct(PresentValues(PhoneNumbers(all))),
      ContactIds(secondaries))
  }

  /** The id list keeps the given order and repeats; the email and phone lists
      hold every non-empty value once, the primary's own value first, and the
      rest in the order in which the rows `[primary] + secondaries` first carry
      them. */
  lemma ResponseDescribesCluster(primary: Contact, secondaries: seq<Contact>)
    ensures var r := BuildResponse(primary, secondaries);
      && r.primaryContactId == primary.id
      && |r.secondaryContactIds| == |secondaries|
      && (forall i :: 0 <= i < |secondaries| ==> r.secondaryContactIds[i] == secondaries[i].id)
      && NoDuplicates(r.emails) && NoDuplicates(r.phoneNumbers)
      && (forall e :: e in r.emails <==>
            e != "" && (primary.email == Some(e) || exists c :: c in secondaries && c.email == Some(e)))
      && (forall p :: p in r.phoneNumbers <==>
            p != "" && (primary.phoneNumber == Some(p) || exists c :: c in secondaries && c.phoneNumber == Some(p)))
      && (Truthy(primary.email) ==> |r.emails| > 0 && r.emails[0] == primary.email.value)
      && (Truthy(primary.phoneNumber) ==> |r.phoneNumbers| > 0 && r.phoneNumbers[0] == primary.phoneNumber.value)
      && var emails, phones := Emails([primary] + secondaries), PhoneNumbers([primary] + secondaries);
      && (forall i, j :: 0 <= i < j < |r.emails| ==>
            && Some(r.emails[i]) in emails && Some(r.emails[j]) in emails
            && FirstIndex(emails, Some(r.emails[i])) < FirstIndex(emails, Some(r.emails[j])))
      && (forall i, j :: 0 <= i < j < |r.phoneNumbers| ==>
            && Some(r.phoneNumbers[i]) in phones && Some(r.phoneNumbers[j]) in phones
            && FirstIndex(phones, Some(r.phoneNumbers[i])) < FirstIndex(phones, Some(r.phoneNumbers[j])))
  {
    var all := [primary] + secondaries;
    var emails := Emails(all);
    var phones := PhoneNumbers(all);
    ColumnListsEachValueOnce(emails);
    ColumnListsEachValueOnce(phones);
    forall e ensures Some(e) in emails <==> primary.email == Some(e) || exists c :: c in secondaries && c.email == Some(e)
    {
      if Some(e) in emails {
        var k :| 0 <= k < |all| && emails[k] == Some(e);
        if k > 0 { assert all[k] in secondaries; }
      }
      assert emails[0] == primary.email;
      if c :| c in secondaries && c.email == Some(e) {
        var k :| 0 <= k < |secondaries| && secondaries[k] == c;
        assert emails[k + 1] == Some(e);
      }
    }
    forall p ensures Some(p) in phones <==> primary.phoneNumber == Some(p) || exists c :: c in secondaries && c.phoneNumber == Some(p)
    {
      if Some(p) in phones {
        var k :| 0 <= k < |all| && phones[k] == Some(p);
        if k > 0 { assert all[k] in secondaries; }
      }
      assert phones[0] == primary.phoneNumber;
      if c :| c in secondaries && c.phoneNumber == Some(p) {
        var k :| 0 <= k < |secondaries| && secondaries[k] == c;
        assert phones[k + 1] == Some(p);
      }
    }
  }
}

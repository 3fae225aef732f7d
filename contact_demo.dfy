/**
 * The runtime pieces of the contact demo: property lookup (`getValue`),
 * normalisation of a name or contact (`toContact`), event dispatch
 * (`handleEvent`) and the contact search (`searchContacts`).
 */
module ContactDemo {
  import opened JsValues
  import ArrayFilter
  import GenericQuery
  import Contacts

  // ---------------------------------------------------------------- getValue

  /**
   * `source[propertyName]` (`getValue` and `getValueRestricted` differ only in
   * their static types). A name the type allows but the object lacks (an
   * optional member) reads as undefined.
   */
  function GetValue(source: Record, propertyName: Field): (v: Value)
    ensures propertyName in source ==> v == source[propertyName]
    ensures propertyName !in source ==> v == Undefined
  {
    if propertyName in source then source[propertyName] else Undefined
  }

  /**
   * Reading a contact's members by name gives back exactly the contact's
   * data; an optional member that is absent or holds undefined reads as undefined.
   */
  lemma GetValueOfContact(c: Contacts.Contact)
    ensures GetValue(Contacts.OwnProperties(c), "id") == Num(c.id)
    ensures GetValue(Contacts.OwnProperties(c), "name") == Str(c.name)
    ensures GetValue(Contacts.OwnProperties(c), "status") == Str(Contacts.StatusText(c.status))
    ensures GetValue(Contacts.OwnProperties(c), "street") == Str(c.street)
    ensures GetValue(Contacts.OwnProperties(c), "city") == Str(c.city)
    ensures GetValue(Contacts.OwnProperties(c), "method") ==
      if c.methodRef.Held? then FunctionObj(c.methodRef.value) else Undefined
    ensures GetValue(Contacts.OwnProperties(c), "state") ==
      if c.state.Held? then Str(c.state.value) else Undefined
    ensures GetValue(Contacts.OwnProperties(c), "zip") ==
      if c.zip.Held? then Str(c.zip.value) else Undefined
    ensures GetValue(Contacts.OwnProperties(c), "birthday") ==
      if c.birthday.Held? then DateObj(c.birthday.value) else Undefined
    ensures forall k :: k !in Contacts.MemberNames() ==>
      GetValue(Contacts.OwnProperties(c), k) == if k in c.extra then c.extra[k] else Undefined
  {
  }

  /** The two sample reads: `primaryContact.status` and `{min: 2, max: 10}.max`. */
  lemma SampleGetValues()
    ensures GetValue(Contacts.OwnProperties(Contacts.PrimaryContact()), "status") == Str("active")
    ensures GetValue(map["min" := Num(2), "max" := Num(10)], "max") == Num(10)
  {
  }

  // --------------------------------------------------------------- toContact

  /** The status literals `"active" | "inactive" | "new"`. */
  type ContactStatus2 = s: string | s == "active" || s == "inactive" || s == "new" witness "active"

  /** `Date | number | string`. */
  datatype ContactBirthDate = BirthDateObj(date: Date) | BirthNumber(n: int) | BirthText(text: string)

  /** The member names of `Contact2`. */
  function Contact2Names(): set<Field>
  {
    {"id", "name", "birthDate", "status"}
  }

  /** The further own properties a value typed `Contact2` may carry. */
  type Contact2Extras = r: Record | r.Keys !! Contact2Names() witness map[]

  /**
   * The second contact shape, with the optional members `birthDate?` and
   * `status?` (each absent, or an own property holding a value or
   * undefined) and whatever further own properties the value has.
   */
  datatype Contact2 = Contact2(
    id: int,
    name: string,
    birthDate: Contacts.Member<ContactBirthDate>,
    status: Contacts.Member<ContactStatus2>,
    extra: Contact2Extras)

  /** The `string | Contact2` argument of `toContact`. */
  datatype NameOrContact = NameArg(name: string) | ContactArg(contact: Contact2)

  /**
   * `toContact`: a bare name becomes a new active contact with id 0; a
   * contact becomes a new object with exactly its `id`, `name` and `status`,
   * where a missing status is copied as an own `status` holding undefined.
   */
  function ToContact(nameOrContact: NameOrContact): (c: Contact2)
    ensures nameOrContact.NameArg? ==>
      c == Contact2(0, nameOrContact.name, Contacts.Absent, Contacts.Held("active"), map[])
    ensures nameOrContact.ContactArg? ==>
      && c.id == nameOrContact.contact.id
      && c.name == nameOrContact.contact.name
      && (nameOrContact.contact.status.Held? ==> c.status == nameOrContact.contact.status)
      && (!nameOrContact.contact.status.Held? ==> c.status == Contacts.HeldUndefined)
    ensures c.birthDate.Absent? && !c.status.Absent? && c.extra == map[]
  {
    match nameOrContact
    case ContactArg(other) =>
      Contact2(other.id, other.name, Contacts.Absent,
        if other.status.Held? then other.status else Contacts.HeldUndefined, map[])
    case NameArg(name) => Contact2(0, name, Contacts.Absent, Contacts.Held("active"), map[])
  }

  /** Normalising a normalised contact changes nothing. */
  lemma ToContactIdempotent(x: NameOrContact)
    ensures ToContact(ContactArg(ToContact(x))) == ToContact(x)
  {
  }

  /**
   * A contact comes back unchanged exactly when it has no `birthDate`
   * property, has `status` as an own property and has no further own
   * properties.
   */
  lemma ToContactFixedPoints(c: Contact2)
    ensures ToContact(ContactArg(c)) == c <==>
      c.birthDate.Absent? && !c.status.Absent? && c.extra == map[]
  {
  }

  /**
   * `toContact({id: 1, name: "a"})` gives `{id: 1, name: "a", status: undefined}`:
   * the argument has no birth date, yet it comes back changed.
   */
  lemma MissingStatusBecomesOwnUndefined()
    ensures ToContact(ContactArg(Contact2(1, "a", Contacts.Absent, Contacts.Absent, map[])))
      == Contact2(1, "a", Contacts.Absent, Contacts.HeldUndefined, map[])
    ensures ToContact(ContactArg(Contact2(1, "a", Contacts.Absent, Contacts.Absent, map[])))
      != Contact2(1, "a", Contacts.Absent, Contacts.Absent, map[])
  {
  }

  // ------------------------------------------------------------- handleEvent

  /** The keys of `ContactEvents`. */
  type ContactEventName = s: string | s == "deleted" || s == "statusChanged" witness "deleted"

  /** The event payloads `ContactEvents[T]`. */
  datatype ContactEvent =
    | ContactDeletedEvent(contactId: int)
    | ContactStatusChangedEvent(contactId: int, oldStatus: Option<ContactStatus2>, newStatus: Option<ContactStatus2>)

  /** The key of `ContactEvents` whose payload type an event has. */
  function EventNameOf(e: ContactEvent): ContactEventName
  {
    match e
    case ContactDeletedEvent(_) => "deleted"
    case ContactStatusChangedEvent(_, _, _) => "statusChanged"
  }

  /**
   * `handleEvent(eventName, handler)`, modelled by the list of payloads the
   * handler is called with, in call order.
   */
  function HandleEvent(eventName: ContactEventName): (calls: seq<ContactEvent>)
    ensures |calls| <= 1
    ensures |calls| == 1 <==> eventName == "statusChanged"
    ensures forall e :: e in calls ==> EventNameOf(e) == eventName
    ensures forall e :: e in calls ==> e == ContactStatusChangedEvent(1, Some("active"), Some("inactive"))
  {
    if eventName == "statusChanged" then
      [ContactStatusChangedEvent(1, Some("active"), Some("inactive"))]
    else
      []
  }

  // ---------------------------------------------------------- searchContacts

  datatype SortOrder = Asc | Desc

  /** A per-property query object: a `sort` hint (never read) and a `matches` predicate. */
  datatype PropertyQuery = PropertyQuery(sort: Option<SortOrder>, matches: Value -> bool)

  type ContactQuery = map<Field, PropertyQuery>

  /** The `matches` predicates of a contact query. */
  function Predicates(cq: ContactQuery): (q: GenericQuery.FieldQuery)
    ensures q.Keys == cq.Keys
    ensures forall k :: k in cq ==> q[k] == cq[k].matches
  {
    map k | k in cq :: cq[k].matches
  }

  /** Some own property of `c` has a query entry whose `matches` accepts its value. */
  predicate PassesQuery(c: Contacts.Contact, cq: ContactQuery)
  {
    var p := Contacts.OwnProperties(c);
    exists k | k in p :: k in cq && cq[k].matches(p[k])
  }

  /**
   * `searchContacts(contacts, query)`: keep each contact one of whose own
   * properties has a query entry whose `matches` accepts its value.
   */
  function SearchContacts(contacts: seq<Contacts.Contact>, cq: ContactQuery): (r: seq<Contacts.Contact>)
    ensures |r| <= |contacts|
    ensures forall j :: 0 <= j < |r| ==> r[j] in contacts && PassesQuery(r[j], cq)
    ensures forall i :: 0 <= i < |contacts| && PassesQuery(contacts[i], cq) ==> contacts[i] in r
  {
    KeepContactMeans(cq);
    ArrayFilter.Filter(contacts, KeepContact(cq))
  }

  /** The filter callback of `searchContacts`. */
  function KeepContact(cq: ContactQuery): Contacts.Contact -> bool
  {
    c => GenericQuery.Matches(Contacts.OwnProperties(c), Predicates(cq))
  }

  /** The callback keeps a contact exactly when some own property passes its entry's `matches`. */
  lemma KeepContactMeans(cq: ContactQuery)
    ensures forall c: Contacts.Contact :: KeepContact(cq)(c) <==> PassesQuery(c, cq)
  {
  }

  /**
   * The result is the subsequence of `contacts` at exactly the positions of
   * the matching contacts, in increasing order, each position once.
   */
  lemma SearchContactsKeepsMatchesInOrder(contacts: seq<Contacts.Contact>, cq: ContactQuery)
    ensures var r, ps := SearchContacts(contacts, cq), ArrayFilter.KeptPositions(contacts, KeepContact(cq), 0);
      && |r| == |ps|
      && (forall j :: 0 <= j < |r| ==> r[j] == contacts[ps[j]])
      && (forall j, l :: 0 <= j < l < |ps| ==> ps[j] < ps[l])
      && (forall i :: 0 <= i < |contacts| ==>
            (i in ps <==> GenericQuery.Matches(Contacts.OwnProperties(contacts[i]), Predicates(cq))))
  {
    ArrayFilter.FilterSelectsKeptPositions(contacts, KeepContact(cq));
  }

  /**
   * A query entry for a property that no contact has (an absent optional
   * member) is never consulted: dropping it changes nothing.
   */
  lemma AbsentPropertyNeverConsulted(contacts: seq<Contacts.Contact>, cq: ContactQuery, k: Field)
    requires forall i :: 0 <= i < |contacts| ==> k !in Contacts.OwnProperties(contacts[i])
    ensures SearchContacts(contacts, cq) == SearchContacts(contacts, cq - {k})
  {
    forall i | 0 <= i < |contacts|
      ensures KeepContact(cq)(contacts[i]) == KeepContact(cq - {k})(contacts[i])
    {
      var p := Contacts.OwnProperties(contacts[i]);
      if GenericQuery.Matches(p, Predicates(cq)) {
        var k' :| k' in p && GenericQuery.FieldMatches(p, Predicates(cq), k');
        assert GenericQuery.FieldMatches(p, Predicates(cq - {k}), k');
      }
      if GenericQuery.Matches(p, Predicates(cq - {k})) {
        var k' :| k' in p && GenericQuery.FieldMatches(p, Predicates(cq - {k}), k');
        assert GenericQuery.FieldMatches(p, Predicates(cq), k');
      }
    }
    ArrayFilter.FilterCongruent(contacts, KeepContact(cq), KeepContact(cq - {k}));
  }

  /** A contact without a `state` is not kept by a query on `state` alone, however permissive. */
  lemma MissingStateNotMatched(c: Contacts.Contact, matches: Value -> bool)
    requires c.state.Absent?
    ensures SearchContacts([c], map["state" := PropertyQuery(None, matches)]) == []
  {
  }

  /**
   * A property outside the interface, such as an `AddressableContact`'s
   * `province`, is tested too: a query accepting its value keeps the contact.
   */
  lemma ExtraPropertyMatched(c: Contacts.Contact, k: Field, matches: Value -> bool)
    requires k in c.extra && k !in Contacts.MemberNames() && matches(c.extra[k])
    ensures SearchContacts([c], map[k := PropertyQuery(None, matches)]) == [c]
  {
  }

  /** An `AddressableContact`: the primary contact plus the members of `Address2`. */
  function SampleAddressableContact(): Contacts.Contact
  {
    Contacts.PrimaryContact().(extra := map[
      "line1" := Str("1 Queen St"), "line2" := Str(""), "province" := Str("ON"),
      "region" := Str("East"), "postalCode" := Str("K1A 0B1")])
  }

  /** A query whose `id` entry rejects everything and whose `province` entry accepts `"ON"`. */
  function ProvinceQuery(): ContactQuery
  {
    map["id" := PropertyQuery(None, (v: Value) => false),
        "province" := PropertyQuery(None, (v: Value) => v == Str("ON"))]
  }

  /**
   * The `AddressableContact` is kept on its `province` alone, although the
   * `id` entry rejects it.
   */
  lemma AddressableContactMatchedOnProvince()
    ensures SearchContacts([SampleAddressableContact()], ProvinceQuery()) == [SampleAddressableContact()]
  {
    var ac := SampleAddressableContact();
    assert "province" in ac.extra && "province" !in Contacts.MemberNames();
    assert PassesQuery(ac, ProvinceQuery()) by {
      assert Contacts.OwnProperties(ac)["province"] == Str("ON");
    }
    assert |SearchContacts([ac], ProvinceQuery())| == 1;
  }

  /**
   * A contact whose `state` is an own property holding undefined is tested
   * on it: a query accepting undefined keeps it.
   */
  lemma UndefinedStateMatched(c: Contacts.Contact)
    requires c.state.HeldUndefined?
    ensures SearchContacts([c], map["state" := PropertyQuery(None, (v: Value) => v == Undefined)]) == [c]
  {
    var cq := map["state" := PropertyQuery(None, (v: Value) => v == Undefined)];
    assert GenericQuery.FieldMatches(Contacts.OwnProperties(c), Predicates(cq), "state");
  }

  /**
   * `searchContacts` as written: filtering with the key loop, whatever key
   * order `keysOf` enumerates each contact's own properties in, is
   * `SearchContacts`.
   */
  lemma SearchContactsIsTheLoop(contacts: seq<Contacts.Contact>, cq: ContactQuery, keysOf: Record -> seq<Field>)
    requires forall r: Record, k: Field :: k in keysOf(r) <==> k in r
    ensures ArrayFilter.Filter(contacts, (c: Contacts.Contact) =>
        GenericQuery.SearchKeys(keysOf(Contacts.OwnProperties(c)), Contacts.OwnProperties(c), Predicates(cq)))
      == SearchContacts(contacts, cq)
  {
    forall i | 0 <= i < |contacts|
      ensures GenericQuery.SearchKeys(keysOf(Contacts.OwnProperties(contacts[i])), Contacts.OwnProperties(contacts[i]), Predicates(cq))
        == KeepContact(cq)(contacts[i])
    {
      var p := Contacts.OwnProperties(contacts[i]);
      GenericQuery.KeyOrderIrrelevant(keysOf(p), p, Predicates(cq));
    }
    ArrayFilter.FilterCongruent(contacts, (c: Contacts.Contact) =>
        GenericQuery.SearchKeys(keysOf(Contacts.OwnProperties(c)), Contacts.OwnProperties(c), Predicates(cq)),
      KeepContact(cq));
  }

  /** A query with no entries keeps nothing. */
  lemma EmptyContactQueryKeepsNothing(contacts: seq<Contacts.Contact>)
    ensures SearchContacts(contacts, map[]) == []
  {
    ArrayFilter.FilterNoneKept(contacts, KeepContact(map[]));
  }

  /** The `sort` hints do not affect the result: only the `matches` predicates are used. */
  lemma SortHintIgnored(contacts: seq<Contacts.Contact>, cq1: ContactQuery, cq2: ContactQuery)
    requires cq1.Keys == cq2.Keys
    requires forall k :: k in cq1 ==> cq1[k].matches == cq2[k].matches
    ensures SearchContacts(contacts, cq1) == SearchContacts(contacts, cq2)
  {
    assert Predicates(cq1) == Predicates(cq2);
  }
}

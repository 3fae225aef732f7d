/**
 * The `Contact` interface (with the `Address` it extends) that
 * `searchContacts` filters, and the `primaryContact` sample value.
 */
module Contacts {
  import opened JsValues

  /** The string enum of a contact's status. */
  datatype ContactStatus = Active | Inactive | New

  /** The string each enum member stands for at run time. */
  function StatusText(s: ContactStatus): (t: string)
    ensures s == Active <==> t == "active"
    ensures s == Inactive <==> t == "inactive"
    ensures s == New <==> t == "new"
  {
    match s
    case Active => "active"
    case Inactive => "inactive"
    case New => "new"
  }

  /**
   * An optional member `m?: T`: the object may lack the property, or have
   * it as an own property holding a `T` or holding undefined.
   */
  datatype Member<+T> = Absent | Held(value: T) | HeldUndefined

  /**
   * A contact, with the optional members `birthday?`, `method?` (as
   * `methodRef`), `state?` and `zip?`. Since typing is structural, a value
   * passed as a `Contact` may carry further own properties (an
   * `AddressableContact` has `line1`, `province` and so on): `extra` holds
   * them. An entry of `extra` named like an interface member is shadowed by
   * that member.
   */
  datatype Contact = Contact(
    id: int,
    name: string,
    birthday: Member<Date>,
    status: ContactStatus,
    methodRef: Member<nat>,
    street: string,
    city: string,
    state: Member<string>,
    zip: Member<string>,
    extra: Record)

  /** The names of the interface's members. */
  function MemberNames(): set<Field>
  {
    {"id", "name", "status", "street", "city", "birthday", "method", "state", "zip"}
  }

  /** The names of the contact's own properties. */
  function OwnKeys(c: Contact): set<Field>
  {
    {"id", "name", "status", "street", "city"}
    + (if c.birthday.Absent? then {} else {"birthday"})
    + (if c.methodRef.Absent? then {} else {"method"})
    + (if c.state.Absent? then {} else {"state"})
    + (if c.zip.Absent? then {} else {"zip"})
    + (c.extra.Keys - MemberNames())
  }

  /** The value an own optional member holds. */
  function HeldValue<T>(m: Member<T>, v: T -> Value): Value
  {
    if m.Held? then v(m.value) else Undefined
  }

  /** The value of the contact's property `k`. */
  function PropertyValue(c: Contact, k: Field): Value
  {
    match k
    case "id" => Num(c.id)
    case "name" => Str(c.name)
    case "status" => Str(StatusText(c.status))
    case "street" => Str(c.street)
    case "city" => Str(c.city)
    case "birthday" => HeldValue(c.birthday, d => DateObj(d))
    case "method" => HeldValue(c.methodRef, f => FunctionObj(f))
    case "state" => HeldValue(c.state, s => Str(s))
    case "zip" => HeldValue(c.zip, s => Str(s))
    case _ => if k in c.extra then c.extra[k] else Undefined
  }

  /**
   * The contact as an object: the required members are always own
   * properties, an optional member exactly when the object has it (possibly
   * holding undefined), and every further own property it carries.
   */
  function OwnProperties(c: Contact): (r: Record)
    ensures r.Keys == {"id", "name", "status", "street", "city"}
      + (if c.birthday.Absent? then {} else {"birthday"})
      + (if c.methodRef.Absent? then {} else {"method"})
      + (if c.state.Absent? then {} else {"state"})
      + (if c.zip.Absent? then {} else {"zip"})
      + (c.extra.Keys - MemberNames())
    ensures r["id"] == Num(c.id) && r["name"] == Str(c.name)
    ensures r["status"] == Str(StatusText(c.status))
    ensures r["street"] == Str(c.street) && r["city"] == Str(c.city)
    ensures c.birthday.Held? ==> r["birthday"] == DateObj(c.birthday.value)
    ensures c.birthday.HeldUndefined? ==> r["birthday"] == Undefined
    ensures c.methodRef.Held? ==> r["method"] == FunctionObj(c.methodRef.value)
    ensures c.methodRef.HeldUndefined? ==> r["method"] == Undefined
    ensures c.state.Held? ==> r["state"] == Str(c.state.value)
    ensures c.state.HeldUndefined? ==> r["state"] == Undefined
    ensures c.zip.Held? ==> r["zip"] == Str(c.zip.value)
    ensures c.zip.HeldUndefined? ==> r["zip"] == Undefined
    ensures forall k :: k in c.extra && k !in MemberNames() ==> r[k] == c.extra[k]
  {
    map k | k in OwnKeys(c) :: PropertyValue(c, k)
  }

  /** `primaryContact`, with its `method` property standing for the arrow function it holds. */
  function PrimaryContact(): Contact
  {
    Contact(1000, "Cristian", Absent, Active, Held(0), "123 Main St", "Anytown", Absent, Absent, map[])
  }
}

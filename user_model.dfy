/** The customer record and the loosely typed draft the form edits. */
module UserModel {

  /** A customer as the remote API returns it. The birth date travels as JSON text. */
  datatype User = User(
    id: int,
    firstName: string,
    lastName: string,
    dni: string,
    phone: string,
    email: string,
    city: string,
    gender: string,
    age: int,
    birthDate: string,
    deleted: bool)

  /** A property value of the draft object: a string, a number or a boolean. */
  datatype Value = Text(s: string) | Number(n: int) | Flag(b: bool)

  /** The form's draft: the record's properties by name, any subset of them present. */
  type Draft = map<string, Value>

  const TextFields: set<string> :=
    {"first_name", "last_name", "dni", "phone", "email", "city", "gender", "birth_date"}

  const RecordFields: set<string> := TextFields + {"ID", "age", "deleted"}

  /** Every present ruled property holds text, as it does at run time: the API's JSON gives
      strings, and the date picker stores birth_date as ISO text (although User.ts types
      birth_date as a Date). */
  predicate WellTyped(d: Draft)
  {
    forall k | k in d && k in TextFields :: d[k].Text?
  }

  /** JavaScript truthiness of a property value. */
  predicate Truthy(v: Value)
  {
    match v
    case Text(s) => s != ""
    case Number(n) => n != 0
    case Flag(b) => b
  }

  /** A fetched record as the draft object the edit form starts from. */
  function AsDraft(u: User): (d: Draft)
    ensures d.Keys == RecordFields && WellTyped(d)
    ensures d["ID"] == Number(u.id) && d["age"] == Number(u.age) && d["deleted"] == Flag(u.deleted)
    ensures d["first_name"] == Text(u.firstName) && d["last_name"] == Text(u.lastName)
    ensures d["dni"] == Text(u.dni) && d["phone"] == Text(u.phone) && d["email"] == Text(u.email)
    ensures d["city"] == Text(u.city) && d["gender"] == Text(u.gender)
    ensures d["birth_date"] == Text(u.birthDate)
  {
    map[
      "ID" := Number(u.id),
      "first_name" := Text(u.firstName),
      "last_name" := Text(u.lastName),
      "dni" := Text(u.dni),
      "phone" := Text(u.phone),
      "email" := Text(u.email),
      "city" := Text(u.city),
      "gender" := Text(u.gender),
      "age" := Number(u.age),
      "birth_date" := Text(u.birthDate),
      "deleted" := Flag(u.deleted)]
  }

}

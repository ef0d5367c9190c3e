/** Vocabulary shared by every route module: document ids, optional values
    and decoded JSON request bodies. */
module Base {

  /** A document id (a Mongo ObjectId) in its string form, as `doc.id` yields it. */
  type Id = string

  datatype Option<+T> = None | Some(value: T)

  /** A decoded JSON request body: field name to string value. A field missing
      from the map is `undefined` on the JavaScript side. */
  type Body = map<string, string>

  /** JavaScript truthiness of a string-valued field: present and not "". */
  predicate Truthy(body: Body, field: string) {
    field in body && body[field] != ""
  }

  /** A field read by destructuring `req.body`: `undefined` becomes None. */
  function Optional(body: Body, field: string): Option<string> {
    if field in body then Some(body[field]) else None
  }

  /** The guarded copy `if (x) { out.x = x; }`: the value when truthy, otherwise
      nothing is set. */
  function IfTruthy(body: Body, field: string): Option<string> {
    if Truthy(body, field) then Some(body[field]) else None
  }
}

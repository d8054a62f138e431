/** Flask's per-client session, as the program uses it: a dictionary from names to strings. */
module FlaskSession {

  const UserIdKey := "user_id"

  const RoleKey := "role"

  class Session {
    var data: map<string, string>

    constructor ()
      ensures data == map[]
    {
      data := map[];
    }

    /** session[key] = value */
    method Set(key: string, value: string)
      modifies this
      ensures data == old(data)[key := value]
    {
      data := data[key := value];
    }

    /** session.clear() */
    method Clear()
      modifies this
      ensures data == map[]
    {
      data := map[];
    }
  }
}

/** Optional values: a field a document may lack, a request value that failed to parse. */
module Wrappers {
  datatype Option<+T> = None | Some(value: T)
}

/** The users the application knows. The user model itself is not part of this
    model; a caller is identified by its object id and its role. */
module Users {
  /** MongoDB object ids of users and gatepasses. */
  type ObjectId = nat

  /** The role stored on a user. The three roles the application offers, and
      OtherRole for any other string the user collection may hold. */
  datatype Role = Student | Faculty | Security | OtherRole

  datatype User = User(id: ObjectId, role: Role)
}

/** Identifiers and small wrapper types shared by every action module. */
module Common {

  /** A user's ObjectId. */
  type UserId = nat
  /** A question's ObjectId. */
  type QuestionId = nat
  /** An answer's ObjectId. */
  type AnswerId = nat
  /** A tag's position in the tag collection (tags are only ever inserted). */
  type TagId = nat

  datatype Option<+T> = None | Some(value: T)

  /** What a server action reports back: it returns normally or throws an `Error` with a message. */
  datatype Outcome = Done | Thrown(message: string)

}

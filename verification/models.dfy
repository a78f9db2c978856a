/** The two record types the services store: a credential record and a
    numeric-score session. */
module Models {
  import opened Wrappers

  /** A stored credential record; the password is kept and compared in plain text. */
  datatype User = User(username: string, password: string)

  /** A session owned by the user whose username is `userId`. Dates are abstract
      timestamps; `endDate` is unset until the session is ended. */
  datatype Session = Session(
    id: string,
    userId: string,
    startDate: nat,
    endDate: Option<nat>,
    scores: seq<int>,
    isActive: bool)
}

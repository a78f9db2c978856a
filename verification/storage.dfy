/** The browser's local key-value store, reduced to the three keys the services
    use, with values already decoded: `None` means nothing is stored under that key. */
module Storage {
  import opened Wrappers
  import opened Models

  datatype Store = Store(
    users: Option<seq<User>>,        // key "users"
    currentUser: Option<User>,       // key "currentUser"
    sessions: Option<seq<Session>>)  // key "sessions"

  /** A store with nothing saved under any key. */
  const Empty: Store := Store(None, None, None)
}

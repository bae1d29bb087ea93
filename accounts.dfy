/** The signed-in user as the screens read it from Firebase Auth. */
module Accounts {
  /** `uid` and `displayName`; a missing display name is the empty text. */
  datatype User = User(uid: string, displayName: string)

  /** `user.displayName || 'Anonymous'`: an empty name is replaced. */
  function NameOrAnonymous(u: User): (name: string)
    ensures u.displayName != "" ==> name == u.displayName
    ensures u.displayName == "" ==> name == "Anonymous"
    ensures name != ""
  {
    if u.displayName != "" then u.displayName else "Anonymous"
  }
}

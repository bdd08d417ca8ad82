/**
  The signed-in user (store/auth-store.ts): either a user record or nobody,
  overwritten by `login` and cleared by `logout`.
 */
module AuthStore {
  import opened Wrappers

  datatype User = User(id: string, name: string, email: string, avatar: string)

  /** The store's state, as the `useAuth` hook shares it; `None` stands for `null`. */
  class AuthState {
    var user: Option<User>

    /** Nobody is signed in at first. */
    constructor()
      ensures user == None
    {
      user := None;
    }

    /** Replaces whatever user was signed in. */
    method Login(u: User)
      modifies this
      ensures user == Some(u)
    {
      user := Some(u);
    }

    method Logout()
      modifies this
      ensures user == None
    {
      user := None;
    }
  }

  /** Logging in twice keeps only the second user; logging out afterwards signs everybody out. */
  method LoginTwiceThenLogout(u: User, v: User) returns (afterLogins: Option<User>, afterLogout: Option<User>)
    ensures afterLogins == Some(v)
    ensures afterLogout == None
  {
    var auth := new AuthState();
    auth.Login(u);
    auth.Login(v);
    afterLogins := auth.user;
    auth.Logout();
    afterLogout := auth.user;
  }

  /** A second logout changes nothing. */
  method LogoutTwice(u: User) returns (once: Option<User>, twice: Option<User>)
    ensures once == None && twice == once
  {
    var auth := new AuthState();
    auth.Login(u);
    auth.Logout();
    once := auth.user;
    auth.Logout();
    twice := auth.user;
  }
}

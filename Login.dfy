/**
 * The start-up login window: the access decision against the stored password
 * file, and the `IsAuthenticated` flag the application reads after the dialog.
 * Whether the password file exists and its full text are inputs; the hash that
 * is compared with the file, Base64 of SHA-256 of the UTF-8 bytes, is a
 * function parameter with no further properties.
 */
module Login {
  import opened Framework

  /**
   * `AuthenticateUser(password)`. `passwordFile` is `None` when the password
   * file does not exist and otherwise holds the file's whole text.
   */
  function AuthenticateUser(passwordFile: Option<string>, password: string, hashPassword: string -> string): (granted: bool) {
    match passwordFile
    case None => true
    case Some(stored) =>
      if password == "" then false
      else stored == hashPassword(password)
  }

  /** Without a password file every entered password is accepted, the empty one included. */
  lemma NoPasswordFileGrantsAccess(password: string, hashPassword: string -> string)
    ensures AuthenticateUser(None, password, hashPassword)
  {
  }

  /** With a password file an empty password is refused, whatever the file holds. */
  lemma EmptyPasswordDenied(stored: string, hashPassword: string -> string)
    ensures !AuthenticateUser(Some(stored), "", hashPassword)
  {
  }

  /** With a password file the decision is: non-empty, and its hash equals the file text exactly. */
  lemma GrantedIffHashMatches(stored: string, password: string, hashPassword: string -> string)
    ensures AuthenticateUser(Some(stored), password, hashPassword) <==> password != "" && stored == hashPassword(password)
  {
  }

  class LoginWindow {
    var IsAuthenticated: bool
    var closed: bool

    constructor ()
      ensures !IsAuthenticated && !closed
    {
      IsAuthenticated := false;
      closed := false;
    }

    /**
     * `LoginButton_Click` with `entered` the text of the password box: on
     * success the flag is set and the window closes; a refusal changes neither.
     */
    method LoginButtonClick(entered: string, passwordFile: Option<string>, hashPassword: string -> string)
      returns (granted: bool)
      modifies this
      ensures granted == AuthenticateUser(passwordFile, entered, hashPassword)
      ensures IsAuthenticated == (old(IsAuthenticated) || granted)
      ensures closed == (old(closed) || granted)
    {
      granted := AuthenticateUser(passwordFile, entered, hashPassword);
      if granted {
        IsAuthenticated := true;
        closed := true;
      }
    }
  }
}

/**
 * The two password length limits side by side: the browser allows 8 to 128
 * characters, `register` allows 8 to 200.
 */
module PasswordCaps {
  import opened Wrappers
  import AuthServer
  import ClientValidation

  /** A password the browser's form check lets through passes both server length guards. */
  lemma ClientLimitWithinServerLimit(f: AuthServer.RegisterForm)
    requires ClientValidation.PasswordLengthError(AuthServer.RegPassword(f)).None?
    ensures AuthServer.LongEnough(f) && AuthServer.ShortEnough(f)
  {
  }

  /**
   * A password of 129 to 200 characters is refused by the browser as too long
   * but accepted by the server's length guards when posted directly.
   */
  lemma ServerAcceptsLongerThanClient(f: AuthServer.RegisterForm)
    requires ClientValidation.CLIENT_MAX_PASSWORD < |AuthServer.RegPassword(f)| <= AuthServer.MAX_PASSWORD_LENGTH
    ensures ClientValidation.PasswordLengthError(AuthServer.RegPassword(f)) == Some(ClientValidation.TOO_LONG_MESSAGE)
    ensures AuthServer.LongEnough(f) && AuthServer.ShortEnough(f)
  {
  }
}

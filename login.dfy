/** The login form and what a sign-in attempt does once the request
    settles. Its email check and error flag are those of module Email. */
module Login {
  import opened Common

  const AfterLoginPath: string := "/upload"

  /** The body of the login request. */
  datatype LoginRequest = LoginRequest(email: string, password: string)

  /** How the login request ended: the token and message of the response
      body, or a thrown error (the request failed or was rejected). */
  datatype LoginReply = Accepted(token: string, message: string) | Failed

  /** The calls a successful sign-in makes, in order. */
  function SignInEffects(token: string, message: string): (effects: seq<Effect>)
    ensures |effects| == 4
    ensures effects[0] == StoreItem(AuthTokenKey, token)
    ensures effects[1] == Alert(message) && effects[2] == LoginCallback(token)
    ensures effects[|effects| - 1] == Navigate(AfterLoginPath)
    // A corollary of the clauses above: login is called only with the token, and never first or last.
    ensures forall i :: 0 <= i < |effects| && effects[i].LoginCallback? ==> 0 < i < |effects| - 1 && effects[i].token == token
  {
    [StoreItem(AuthTokenKey, token), Alert(message), LoginCallback(token), Navigate(AfterLoginPath)]
  }

  class LoginForm {
    var email: string
    var password: string
    /** The browser's local storage. */
    var storage: map<string, string>
    /** Calls into the browser, the authentication context and the router, oldest first. */
    var effects: seq<Effect>

    constructor (storage: map<string, string>)
      ensures email == "" && password == "" && this.storage == storage && effects == []
    {
      email, password := "", "";
      this.storage, effects := storage, [];
    }

    method HandleEmailChange(value: string)
      modifies this`email
      ensures email == value
    {
      email := value;
    }

    method HandlePasswordChange(value: string)
      modifies this`password
      ensures password == value
    {
      password := value;
    }

    /** A submission, with `reply` the settled request. Nothing requires the
        email to be valid: the Sign In button is never disabled. On success
        the token is stored before the login callback runs and before the
        route changes; on failure nothing is stored and nothing happens. */
    method HandleSubmit(reply: LoginReply) returns (request: LoginRequest)
      modifies this`storage, this`effects
      ensures request == LoginRequest(email, password)
      ensures reply.Accepted? ==> storage == old(storage)[AuthTokenKey := reply.token]
      ensures reply.Accepted? ==> effects == old(effects) + SignInEffects(reply.token, reply.message)
      ensures reply.Failed? ==> storage == old(storage) && effects == old(effects)
    {
      request := LoginRequest(email, password);
      if reply.Accepted? {
        storage := storage[AuthTokenKey := reply.token];
        effects := effects + [StoreItem(AuthTokenKey, reply.token)];
        effects := effects + [Alert(reply.message)];
        effects := effects + [LoginCallback(reply.token)];
        effects := effects + [Navigate(AfterLoginPath)];
      }
    }
  }

  /** After a successful sign-in the feed's token guard passes exactly when
      the server sent a non-empty token. */
  lemma SignInEnablesFeed(storage: map<string, string>, token: string)
    ensures HasToken(storage[AuthTokenKey := token]) <==> token != ""
  {
  }
}

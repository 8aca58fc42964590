/** What the three components share: an optional value, the browser effects
    whose order matters (a value written to local storage, an alert, the
    authentication context's login callback, a route change), and the lookup
    of the stored authentication token. */
module Common {

  datatype Option<+T> = None | Some(value: T)

  /** A call into code outside the components, recorded in the order it is made. */
  datatype Effect =
    | StoreItem(key: string, value: string)   // localStorage.setItem(key, value)
    | Alert(text: string)                     // alert(text)
    | LoginCallback(token: string)            // login(token) of the authentication context
    | Navigate(path: string)                  // navigate(path)

  const AuthTokenKey: string := "authToken"

  /** `localStorage.getItem("authToken")`: null when the key is absent. */
  function StoredToken(storage: map<string, string>): (t: Option<string>)
    ensures t.Some? <==> AuthTokenKey in storage
    ensures t.Some? ==> t.value == storage[AuthTokenKey]
  {
    if AuthTokenKey in storage then Some(storage[AuthTokenKey]) else None
  }

  /** A JavaScript string that may be missing is truthy when present and non-empty. */
  predicate Truthy(s: Option<string>) {
    s.Some? && s.value != ""
  }

  /** The guard `if (!token)` of the feed's handlers fails exactly when this holds. */
  predicate HasToken(storage: map<string, string>): (ok: bool)
    ensures ok <==> AuthTokenKey in storage && storage[AuthTokenKey] != ""
  {
    Truthy(StoredToken(storage))
  }
}

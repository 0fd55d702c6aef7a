/**
  The client's authentication state (frontend/.../context/AuthContext.jsx): a
  reducer over LOGIN and LOGOUT actions, and a provider that keeps the token and
  the user in the browser's key-value storage and restores them on start-up.
  Decoding the JWT and reading the clock are parameters: `decodeExp` gives the
  token's `exp` claim in seconds, or None when decoding throws or there is no
  numeric claim; `now` is the time in milliseconds.
 */
module AuthContext {
  import opened Wrappers
  import opened JsValues

  datatype AuthState = AuthState(isAuthenticated: bool, user: JsValue, token: JsValue)

  const InitialState := AuthState(false, Null, Null)

  /** A dispatched action: LOGIN with its payload, LOGOUT, or any other type. */
  datatype Action = Login(user: JsValue, token: JsValue) | Logout | Other(kind: string)

  /** `authReducer`. */
  function AuthReducer(state: AuthState, action: Action): (r: AuthState)
    ensures r.isAuthenticated <==> action.Login? || (action.Other? && state.isAuthenticated)
    ensures action.Login? ==> r.user == action.user && r.token == action.token
    ensures action.Logout? ==> r == InitialState
    ensures action.Other? ==> r == state
  {
    match action
    case Login(user, token) => state.(isAuthenticated := true, user := user, token := token)
    case Logout => state.(isAuthenticated := false, user := Null, token := Null)
    case Other(_) => state
  }

  /** The state after dispatching `actions` in order. */
  function ReduceAll(state: AuthState, actions: seq<Action>): AuthState {
    if |actions| == 0 then state
    else AuthReducer(ReduceAll(state, actions[..|actions| - 1]), actions[|actions| - 1])
  }

  /** The last LOGIN or LOGOUT among `actions`, if any. */
  function LastAuthAction(actions: seq<Action>): (r: Option<Action>)
    ensures r.None? <==> forall i :: 0 <= i < |actions| ==> actions[i].Other?
    ensures r.Some? ==> !r.value.Other?
    ensures r.Some? ==> exists i :: 0 <= i < |actions| && actions[i] == r.value
                                     && forall j :: i < j < |actions| ==> actions[j].Other?
  {
    if |actions| == 0 then None
    else if !actions[|actions| - 1].Other? then Some(actions[|actions| - 1])
    else LastAuthAction(actions[..|actions| - 1])
  }

  /** Only the last LOGIN or LOGOUT matters: the state is that action's outcome,
      and the starting state survives only when there is none. */
  lemma {:induction false} LastAuthActionDecides(state: AuthState, actions: seq<Action>)
    ensures LastAuthAction(actions).None? ==> ReduceAll(state, actions) == state
    ensures LastAuthAction(actions).Some? && LastAuthAction(actions).value.Logout? ==>
              ReduceAll(state, actions) == InitialState
    ensures LastAuthAction(actions).Some? && LastAuthAction(actions).value.Login? ==>
              var a := LastAuthAction(actions).value;
              ReduceAll(state, actions) == AuthState(true, a.user, a.token)
  {
    if |actions| > 0 && actions[|actions| - 1].Other? {
      LastAuthActionDecides(state, actions[..|actions| - 1]);
    }
  }

  /** From the initial state, a signed-out state never holds a user or a token. */
  lemma SignedOutHoldsNothing(actions: seq<Action>)
    ensures !ReduceAll(InitialState, actions).isAuthenticated ==>
              ReduceAll(InitialState, actions) == InitialState
  {
    LastAuthActionDecides(InitialState, actions);
  }

  /** What the start-up effect does with what it finds in storage. */
  datatype Restore =
    | NoChange                               // token or user missing (or falsy)
    | RestoreLogin(user: JsValue, token: string)
    | ForceLogout                            // expired or undecodable token
    | Crash                                  // the stored user is not JSON: the effect throws

  /** `token && user`: a non-empty stored token and a stored user that parses to a
      truthy value. */
  predicate SignInStored(storedToken: Option<string>, storedUser: Option<string>,
                         parseJson: string -> Option<JsValue>)
  {
    storedToken.Some? && storedToken.value != ""
    && storedUser.Some? && parseJson(storedUser.value).Some? && Truthy(parseJson(storedUser.value).value)
  }

  /** The decision of the start-up effect. `getItem` gives None for a missing key;
      `JSON.parse(null)` is null, and a failing parse throws outside the `try`. */
  function RestoreDecision(
    storedToken: Option<string>, storedUser: Option<string>,
    parseJson: string -> Option<JsValue>, decodeExp: string -> Option<int>, now: int)
    : (d: Restore)
    ensures d.Crash? <==> storedUser.Some? && parseJson(storedUser.value).None?
    ensures d.NoChange? <==> !d.Crash? && !SignInStored(storedToken, storedUser, parseJson)
    ensures d.RestoreLogin? <==>
              SignInStored(storedToken, storedUser, parseJson)
              && decodeExp(storedToken.value).Some? && decodeExp(storedToken.value).value * 1000 > now
    ensures d.ForceLogout? <==>
              SignInStored(storedToken, storedUser, parseJson)
              && (decodeExp(storedToken.value).None? || decodeExp(storedToken.value).value * 1000 <= now)
    ensures d.RestoreLogin? ==>
              storedToken == Some(d.token) && parseJson(storedUser.value) == Some(d.user)
  {
    var user := if storedUser.None? then Some(Null) else parseJson(storedUser.value);
    if user.None? then Crash
    else if storedToken.None? || storedToken.value == "" || !Truthy(user.value) then NoChange
    else
      var token := storedToken.value;
      match decodeExp(token)
      case None => ForceLogout
      case Some(exp) => if exp * 1000 > now then RestoreLogin(user.value, token) else ForceLogout
  }

  /** A stored session is restored exactly when its token is unexpired and its user
      is present. */
  lemma RestoreOnlyUnexpired(
    token: string, userText: string, user: JsValue,
    parseJson: string -> Option<JsValue>, decodeExp: string -> Option<int>, now: int)
    requires token != "" && parseJson(userText) == Some(user) && Truthy(user)
    ensures RestoreDecision(Some(token), Some(userText), parseJson, decodeExp, now).RestoreLogin?
            <==> decodeExp(token).Some? && decodeExp(token).value * 1000 > now
  {
  }

  /** The provider: the reducer's state and the browser storage it writes. */
  class AuthProvider {
    var state: AuthState
    var storage: map<string, string>

    /** A signed-in state is backed by both storage keys, and the stored token is
        the state's token as a string. */
    ghost predicate Synced()
      reads this
    {
      state.isAuthenticated ==>
        "token" in storage && "user" in storage && storage["token"] == ToJsString(state.token)
    }

    constructor (stored: map<string, string>)
      ensures state == InitialState && storage == stored
      ensures Synced()
    {
      state := InitialState;
      storage := stored;
    }

    /** `login(userData)`: the token is stored as `String(userData.token)`, the user
        object without its token as `JSON.stringify` (here `stringify`) gives it,
        and LOGIN carries both. */
    method Login(userData: map<string, JsValue>, stringify: JsValue -> string)
      modifies this
      ensures Synced()
      ensures storage == old(storage)["token" := ToJsString(Member(Obj(userData), "token"))]
                                     ["user" := stringify(Obj(userData - {"token"}))]
      ensures state == AuthReducer(old(state), Action.Login(Obj(userData - {"token"}), Member(Obj(userData), "token")))
      ensures state.isAuthenticated && "token" !in state.user.props
    {
      var token := Member(Obj(userData), "token");
      storage := storage["token" := ToJsString(token)];
      var user := Obj(userData - {"token"});
      storage := storage["user" := stringify(user)];
      state := AuthReducer(state, Action.Login(user, token));
    }

    /** `logout()`: both keys go, then LOGOUT. */
    method Logout()
      modifies this
      ensures Synced()
      ensures storage == old(storage) - {"token", "user"}
      ensures state == InitialState
    {
      storage := storage - {"token", "user"};
      state := AuthReducer(state, Action.Logout);
    }

    /** The start-up effect. Returns false when it throws (a stored user that is
        not JSON), which leaves everything as it was. */
    method RestoreSession(parseJson: string -> Option<JsValue>, decodeExp: string -> Option<int>, now: int)
      returns (ok: bool)
      requires Synced()
      modifies this
      ensures Synced()
      ensures var d := RestoreDecision(
                if "token" in old(storage) then Some(old(storage)["token"]) else None,
                if "user" in old(storage) then Some(old(storage)["user"]) else None,
                parseJson, decodeExp, now);
              (ok <==> !d.Crash?)
              && (d.Crash? || d.NoChange? ==> state == old(state) && storage == old(storage))
              && (d.ForceLogout? ==> state == InitialState && storage == old(storage) - {"token", "user"})
              && (d.RestoreLogin? ==> state == AuthState(true, d.user, Str(d.token)) && storage == old(storage))
    {
      var storedToken := if "token" in storage then Some(storage["token"]) else None;
      var storedUser := if "user" in storage then Some(storage["user"]) else None;
      var d := RestoreDecision(storedToken, storedUser, parseJson, decodeExp, now);
      match d
      case Crash => ok := false;
      case NoChange => ok := true;
      case ForceLogout =>
        Logout();
        ok := true;
      case RestoreLogin(user, token) =>
        state := AuthReducer(state, Action.Login(user, Str(token)));
        ok := true;
    }
  }
}

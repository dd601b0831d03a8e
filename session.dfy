/**
 * `AuthContextProvider`: the session state holder. It keeps the user's token
 * (`null` until one is known) and a `loading` flag, and mirrors the token in
 * a persistent key-value store (AsyncStorage) under the single key
 * `"userToken"`.
 *
 * The functions `AfterLoad`, `AfterLogin` and `AfterLogout` give the new state
 * of each operation as a value; the class's methods are proved to produce
 * exactly that state, and the lemmas state what the operations promise.
 * A storage call that rejects is modelled by a `fail` argument.
 */
module Session {
  import opened Wrappers

  /** The one key the provider reads, writes and removes. */
  const TokenKey: string := "userToken"

  /** The rejection of an AsyncStorage call. */
  datatype StorageError = StorageError

  /** JavaScript truthiness of a `string | null` value: `null` and `""` are falsy. */
  predicate Truthy(t: Option<string>) {
    t.Some? && t.value != []
  }

  /** `AsyncStorage.getItem(key)` when the store answers: the stored string, or `null`. */
  function GetItem(store: map<string, string>, key: string): Option<string> {
    if key in store then Some(store[key]) else None
  }

  /** The provider's two fields together with the store it drives. */
  datatype Snapshot = Snapshot(userToken: Option<string>, loading: bool, store: map<string, string>)

  /** A freshly mounted provider: no token and loading, over whatever the store holds. */
  function Initial(store: map<string, string>): Snapshot {
    Snapshot(None, true, store)
  }

  /**
   * `loadToken` as written: a truthy stored token is adopted and ends the
   * loading; an absent or empty token changes nothing, and a failed read is
   * caught and logged and changes nothing either.
   */
  function AfterLoad(st: Snapshot, fail: bool): (r: Snapshot)
    ensures r.store == st.store
    ensures r.loading ==> st.loading
    ensures st.loading && !r.loading ==> !fail && Truthy(r.userToken) && r.userToken == GetItem(st.store, TokenKey)
  {
    if fail then st
    else
      var token := GetItem(st.store, TokenKey);
      if Truthy(token) then st.(userToken := token, loading := false) else st
  }

  /** `loadToken` corrected: loading ends however the read turns out. */
  function AfterLoadFixed(st: Snapshot, fail: bool): (r: Snapshot)
    ensures !r.loading && r.store == st.store
    ensures r.userToken == st.userToken || (Truthy(r.userToken) && r.userToken == GetItem(st.store, TokenKey))
  {
    var token := if fail then None else GetItem(st.store, TokenKey);
    if Truthy(token) then st.(userToken := token, loading := false) else st.(loading := false)
  }

  /** `login(token)`: the store is written first; only when that succeeds is the token adopted. */
  function AfterLogin(st: Snapshot, token: string, fail: bool): (r: Snapshot)
    ensures r.loading == st.loading
    ensures fail ==> r == st
    ensures !fail ==> GetItem(r.store, TokenKey) == Some(token) && r.userToken == Some(token)
    ensures forall key | key != TokenKey :: GetItem(r.store, key) == GetItem(st.store, key)
  {
    if fail then st else st.(store := st.store[TokenKey := token], userToken := Some(token))
  }

  /** `logout()`: the key is removed first; only when that succeeds is the token dropped. */
  function AfterLogout(st: Snapshot, fail: bool): (r: Snapshot)
    ensures r.loading == st.loading
    ensures fail ==> r == st
    ensures !fail ==> GetItem(r.store, TokenKey) == None && r.userToken == None
    ensures forall key | key != TokenKey :: GetItem(r.store, key) == GetItem(st.store, key)
  {
    if fail then st else st.(store := st.store - {TokenKey}, userToken := None)
  }

  /** One call on the provider, with the store's answer. */
  datatype Op = LoadToken(fail: bool) | LogIn(token: string, fail: bool) | LogOut(fail: bool)

  function Apply(st: Snapshot, op: Op): Snapshot {
    match op
    case LoadToken(fail) => AfterLoad(st, fail)
    case LogIn(token, fail) => AfterLogin(st, token, fail)
    case LogOut(fail) => AfterLogout(st, fail)
  }

  /** The state after the calls `ops`, in order. */
  function Run(st: Snapshot, ops: seq<Op>): Snapshot
    decreases |ops|
  {
    if ops == [] then st else Run(Apply(st, ops[0]), ops[1..])
  }

  /** The in-memory token is the one the store holds. */
  predicate Synced(st: Snapshot) {
    GetItem(st.store, TokenKey) == st.userToken
  }

  class AuthContextProvider {
    var userToken: Option<string>
    var loading: bool
    var store: map<string, string>

    function State(): Snapshot
      reads this
    {
      Snapshot(userToken, loading, store)
    }

    /** Mounting the provider: `useState(null)` and `useState(true)`; the store is not touched. */
    constructor (store: map<string, string>)
      ensures State() == Initial(store)
    {
      userToken := None;
      loading := true;
      this.store := store;
    }

    /** `AsyncStorage.setItem(key, value)`: on success the key holds the value; a rejection changes nothing. */
    method SetItem(key: string, value: string, fail: bool) returns (r: Outcome<StorageError>)
      modifies this`store
      ensures r == if fail then Fail(StorageError) else Pass
      ensures store == if fail then old(store) else old(store)[key := value]
    {
      if fail {
        r := Fail(StorageError);
      } else {
        store := store[key := value];
        r := Pass;
      }
    }

    /** `AsyncStorage.removeItem(key)`: on success the key is gone; a rejection changes nothing. */
    method RemoveItem(key: string, fail: bool) returns (r: Outcome<StorageError>)
      modifies this`store
      ensures r == if fail then Fail(StorageError) else Pass
      ensures store == if fail then old(store) else old(store) - {key}
    {
      if fail {
        r := Fail(StorageError);
      } else {
        store := store - {key};
        r := Pass;
      }
    }

    /** The effect run once on mount; a rejected read is caught, so nothing is reported. */
    method LoadToken(fail: bool)
      modifies this
      ensures State() == AfterLoad(old(State()), fail)
    {
      if !fail {
        var token := GetItem(store, TokenKey);
        if Truthy(token) {
          userToken := token;
          loading := false;
        }
      }
    }

    /** `loadToken` with the loading flag cleared on every path. */
    method LoadTokenFixed(fail: bool)
      modifies this
      ensures State() == AfterLoadFixed(old(State()), fail)
      ensures !loading
    {
      if !fail {
        var token := GetItem(store, TokenKey);
        if Truthy(token) {
          userToken := token;
        }
      }
      loading := false;
    }

    /** `login(token)`: a rejected write propagates to the caller before the token is adopted. */
    method Login(token: string, fail: bool) returns (r: Outcome<StorageError>)
      modifies this
      ensures r.Pass? <==> !fail
      ensures State() == AfterLogin(old(State()), token, fail)
    {
      r := SetItem(TokenKey, token, fail);
      if r.Pass? {
        userToken := Some(token);
      }
    }

    /** `logout()`: a rejected removal propagates to the caller before the token is dropped. */
    method Logout(fail: bool) returns (r: Outcome<StorageError>)
      modifies this
      ensures r.Pass? <==> !fail
      ensures State() == AfterLogout(old(State()), fail)
    {
      r := RemoveItem(TokenKey, fail);
      if r.Pass? {
        userToken := None;
      }
    }
  }

  /** A truthy stored token is adopted and ends the loading; nothing else changes. */
  lemma LoadFindsToken(st: Snapshot, t: string)
    requires GetItem(st.store, TokenKey) == Some(t) && t != []
    ensures AfterLoad(st, false) == Snapshot(Some(t), false, st.store)
  {
  }

  /** With no token stored, an empty one, or a failed read, loading changes nothing at all. */
  lemma LoadWithoutTokenChangesNothing(st: Snapshot, fail: bool)
    requires fail || !Truthy(GetItem(st.store, TokenKey))
    ensures AfterLoad(st, fail) == st
  {
  }

  /** A second identical login or logout leaves the state as the first one did. */
  lemma LoginLogoutIdempotent(st: Snapshot, t: string)
    ensures AfterLogin(AfterLogin(st, t, false), t, false) == AfterLogin(st, t, false)
    ensures AfterLogout(AfterLogout(st, false), false) == AfterLogout(st, false)
  {
  }

  /** A non-empty token that was logged in is found again by a fresh provider after a restart. */
  lemma LoginSurvivesRestart(st: Snapshot, t: string)
    requires t != []
    ensures AfterLoad(Initial(AfterLogin(st, t, false).store), false) == Snapshot(Some(t), false, st.store[TokenKey := t])
  {
  }

  /** After a logout, a fresh provider finds no token and stays loading. */
  lemma LogoutSurvivesRestart(st: Snapshot, fail: bool)
    ensures AfterLoad(Initial(AfterLogout(st, false).store), fail) == Initial(st.store - {TokenKey})
  {
  }

  /** Every call keeps the in-memory token equal to the stored one once they agree. */
  lemma ApplyKeepsSynced(st: Snapshot, op: Op)
    requires Synced(st)
    ensures Synced(Apply(st, op))
  {
  }

  /** Once the in-memory and stored tokens agree, they agree after any sequence of calls. */
  lemma {:induction false} RunKeepsSynced(st: Snapshot, ops: seq<Op>)
    requires Synced(st)
    ensures Synced(Run(st, ops))
    decreases |ops|
  {
    if ops != [] {
      ApplyKeepsSynced(st, ops[0]);
      RunKeepsSynced(Apply(st, ops[0]), ops[1..]);
    }
  }

  /** No sequence of calls changes the value of any key other than `"userToken"`. */
  lemma {:induction false} RunTouchesOnlyTokenKey(st: Snapshot, ops: seq<Op>, key: string)
    requires key != TokenKey
    ensures GetItem(Run(st, ops).store, key) == GetItem(st.store, key)
    decreases |ops|
  {
    if ops != [] {
      RunTouchesOnlyTokenKey(Apply(st, ops[0]), ops[1..], key);
    }
  }

  /** Once loading has ended it never starts again, whatever calls follow. */
  lemma {:induction false} RunLoadingNeverResumes(st: Snapshot, ops: seq<Op>)
    requires !st.loading
    ensures !Run(st, ops).loading
    decreases |ops|
  {
    if ops != [] {
      RunLoadingNeverResumes(Apply(st, ops[0]), ops[1..]);
    }
  }

  /** Logins and logouts alone never end the loading: only a load that finds a token does. */
  lemma {:induction false} AccountCallsKeepLoading(st: Snapshot, ops: seq<Op>)
    requires st.loading
    requires forall i | 0 <= i < |ops| :: !ops[i].LoadToken?
    ensures Run(st, ops).loading
    decreases |ops|
  {
    if ops != [] {
      AccountCallsKeepLoading(Apply(st, ops[0]), ops[1..]);
    }
  }

  /**
   * The loading flag as written: a provider mounted over a store without a
   * truthy token, or whose read fails, stays loading after its one load.
   */
  lemma LoadingStuckWithoutToken(store: map<string, string>, fail: bool)
    requires fail || !Truthy(GetItem(store, TokenKey))
    ensures AfterLoad(Initial(store), fail).loading
  {
  }

  /** The corrected load ends the loading on every path and otherwise agrees with the original. */
  lemma FixedLoadSettles(st: Snapshot, fail: bool)
    ensures !AfterLoadFixed(st, fail).loading
    ensures AfterLoadFixed(st, fail).userToken == AfterLoad(st, fail).userToken
    ensures AfterLoadFixed(st, fail).store == st.store
    ensures !Truthy(AfterLoadFixed(Initial(st.store), fail).userToken) ==> AfterLoadFixed(Initial(st.store), fail) == Snapshot(None, false, st.store)
  {
  }
}

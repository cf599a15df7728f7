/**
 * The in-memory credential map `users_db`: user name to password digest.
 * SHA-256 is outside the model; the store is given a hash function and
 * assumes nothing about it.
 */
module Credentials {

  /** Registration: insert the digest only when the name is not taken. */
  function Registered(users: map<string, string>, name: string, digest: string): (r: map<string, string>)
    ensures name in users ==> r == users
    ensures name !in users ==> r.Keys == users.Keys + {name} && r[name] == digest
    ensures forall other :: other in users ==> other in r && r[other] == users[other]
  {
    if name in users then users else users[name := digest]
  }

  /**
   * The login check of `login_ui` (app.py:16): the name is known and its
   * stored digest is the given one. `UserStore.Login` computes it.
   */
  predicate Authenticates(users: map<string, string>, name: string, digest: string)
  {
    name in users && users[name] == digest
  }

  /**
   * After a name is newly registered, logging in with it succeeds exactly
   * for passwords whose digest is the registered one, and every other
   * name's logins are as before.
   */
  lemma LoginAfterRegister(users: map<string, string>, name: string, digest: string)
    requires name !in users
    ensures forall d :: Authenticates(Registered(users, name, digest), name, d) <==> d == digest
    ensures forall other, d :: other != name ==>
      (Authenticates(Registered(users, name, digest), other, d) <==> Authenticates(users, other, d))
  {
  }

  /** Registering a taken name changes no login. */
  lemma RegisterTakenKeepsLogins(users: map<string, string>, name: string, digest: string)
    requires name in users
    ensures forall other, d ::
      Authenticates(Registered(users, name, digest), other, d) <==> Authenticates(users, other, d)
  {
  }

  /** The map that app.py:6 builds: the single account admin/admin. */
  function InitialUsers(hash: string -> string): (m: map<string, string>)
    ensures m.Keys == {"admin"} && m["admin"] == hash("admin")
  {
    map["admin" := hash("admin")]
  }

  /**
   * One button click, handled by one run of the script: the Register click
   * of `register_ui` or the Login click of `login_ui`.
   */
  datatype Click = RegisterClick(name: string, password: string) | LoginClick(name: string, password: string)

  /**
   * As written: the page script runs again from the top for every click, and
   * app.py:6 rebuilds `users_db` at the start of each run. Whatever clicks
   * came before, a run starts from the initial map.
   */
  function StoreAtRunAsWritten(hash: string -> string, earlier: seq<Click>): map<string, string>
  {
    InitialUsers(hash)
  }

  /**
   * As intended: the map lives across runs, and each earlier Register click
   * has been applied to it in order.
   */
  function StoreAtRunPersistent(hash: string -> string, earlier: seq<Click>): map<string, string>
  {
    if earlier == [] then InitialUsers(hash)
    else
      var before := StoreAtRunPersistent(hash, earlier[..|earlier| - 1]);
      match earlier[|earlier| - 1] {
        case RegisterClick(name, password) => Registered(before, name, hash(password))
        case LoginClick(_, _) => before
      }
  }

  /**
   * As written, a user who registers any name other than admin, in any
   * history, and then clicks Login with the same password is refused:
   * the registration was lost when its run ended.
   */
  lemma RegistrationLostAsWritten(hash: string -> string, earlier: seq<Click>, name: string, password: string)
    requires name != "admin"
    ensures !Authenticates(StoreAtRunAsWritten(hash, earlier + [RegisterClick(name, password)]),
                           name, hash(password))
  {
  }

  /** The concrete case: register alice/secret, then log in as alice/secret. */
  lemma AliceRefusedAsWritten(hash: string -> string)
    ensures !Authenticates(StoreAtRunAsWritten(hash, [RegisterClick("alice", "secret")]),
                           "alice", hash("secret"))
  {
  }

  /** With a persistent map, an account once stored is never changed or lost. */
  lemma {:induction false} PersistentKeepsAccounts(hash: string -> string, earlier: seq<Click>, later: seq<Click>)
    ensures forall name :: name in StoreAtRunPersistent(hash, earlier) ==>
      && name in StoreAtRunPersistent(hash, earlier + later)
      && StoreAtRunPersistent(hash, earlier + later)[name] == StoreAtRunPersistent(hash, earlier)[name]
  {
    if later != [] {
      var init := later[..|later| - 1];
      PersistentKeepsAccounts(hash, earlier, init);
      assert (earlier + later)[..|earlier + later| - 1] == earlier + init;
    } else {
      assert earlier + later == earlier;
    }
  }

  /**
   * With a persistent map, a user who registers a new name and later clicks
   * Login with the same password is accepted, whatever clicks come between.
   */
  lemma RegistrationKeptPersistent(hash: string -> string, earlier: seq<Click>, name: string,
                                   password: string, between: seq<Click>)
    requires name !in StoreAtRunPersistent(hash, earlier)
    ensures Authenticates(StoreAtRunPersistent(hash, earlier + [RegisterClick(name, password)] + between),
                          name, hash(password))
  {
    var withName := earlier + [RegisterClick(name, password)];
    assert withName[..|withName| - 1] == earlier;
    LoginAfterRegister(StoreAtRunPersistent(hash, earlier), name, hash(password));
    PersistentKeepsAccounts(hash, withName, between);
  }

  /**
   * `users_db` kept across calls, which is the intended persistent map.
   * The hash function stands for `hash_password`.
   */
  class UserStore {
    const hash: string -> string
    var users: map<string, string>

    /** The store starts with the single account admin/admin. */
    constructor (hash: string -> string)
      ensures this.hash == hash
      ensures users == InitialUsers(hash)
    {
      this.hash := hash;
      users := map["admin" := hash("admin")];
    }

    /**
     * `register_ui`: a taken name leaves the store unchanged (the warning
     * branch); otherwise exactly one entry, name to the password's digest,
     * is added.
     */
    method Register(name: string, password: string) returns (added: bool)
      modifies this
      ensures added <==> name !in old(users)
      ensures users == Registered(old(users), name, hash(password))
    {
      if name in users {
        added := false;
      } else {
        users := users[name := hash(password)];
        added := true;
      }
    }

    /** `login_ui`: succeeds exactly when the name is stored with the password's digest. */
    method Login(name: string, password: string) returns (ok: bool)
      ensures ok == Authenticates(users, name, hash(password))
    {
      ok := Authenticates(users, name, hash(password));
    }
  }

}

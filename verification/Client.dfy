/**
 * The client around the session and the configuration (`legacy/rust-src/client.rs`): a login
 * that has verified the server stores its key, and a later client starts from what is stored.
 */
module Client {
  import opened Wrappers
  import opened Srp
  import Bytes
  import ConfigModel
  import ConfigStore

  datatype Failure = SessionFailure(reason: Srp.Status) | StoreFailure(cause: ConfigModel.Status)

  /** What a login writes: who, the key and where, dated now, with no metadata. */
  function LoginInput(username: string, key: nat, host: string, port: nat): ConfigModel.Input {
    ConfigModel.Input(Some(username), Some(key), Some(port), Some(host), false, false, None,
                      ConfigModel.NoLaunch(), ConfigModel.NoBridge(), false, false, true)
  }

  /** Who a client is, and its key, after it has looked at the stored configuration. */
  function Resumed(found: Result<ConfigModel.Runtime, ConfigModel.Status>, username: string, key: Option<nat>)
    : (string, Option<nat>)
  {
    if found.Ok? && found.value.username != "" && found.value.sharedKey != 0
    then (found.value.username, Some(found.value.sharedKey))
    else (username, key)
  }

  class Manager {
    const session: SrpSession
    const store: ConfigStore.ConfigStore
    const utf8: string -> seq<Bytes.Byte>
    var username: string
    var remoteHost: string
    var remotePort: nat

    ghost predicate Valid()
      reads this, session
    {
      session.grp.N > 1 && session.username == utf8(username)
    }

    /** A client over a session that has not been used and a store. */
    constructor (session: SrpSession, store: ConfigStore.ConfigStore, utf8: string -> seq<Bytes.Byte>,
                 username: string, host: string, port: nat)
      requires session.grp.N > 1 && session.username == utf8(username)
      ensures Valid() && this.session == session && this.store == store && this.utf8 == utf8
      ensures this.username == username && remoteHost == host && remotePort == port
    {
      this.session, this.store, this.utf8 := session, store, utf8;
      this.username, this.remoteHost, this.remotePort := username, host, port;
    }

    /** `verify_challenge` to its end: exchange proofs, then write the configuration. */
    method VerifyChallenge(pin: seq<Bytes.Byte>, server: seq<Bytes.Byte> -> Result<PakeMessage, Srp.Status>,
                           now: int, faults: ConfigModel.Faults)
      returns (r: Result<(), Failure>)
      requires Valid()
      modifies session, store
      ensures Valid()
      ensures var verified := Verified(session.grp, session.hash, old(session.View()), pin, server);
              var key := DerivedKey(session.grp, session.hash, old(session.View()), pin);
        if !verified then r.Err? && r.error.SessionFailure? && store.View() == old(store.View())
        else
          var (written, outcome) := ConfigModel.Write(
            store.machine, old(store.View()), LoginInput(username, key.value, remoteHost, remotePort), now, faults);
          store.View() == written && r == if outcome.Ok? then Ok(()) else Err(StoreFailure(outcome.error))
      ensures session.View() ==
        var key := DerivedKey(session.grp, session.hash, old(session.View()), pin);
        if key.Ok? then old(session.View()).(sharedKey := Some(key.value)) else old(session.View())
    {
      var sharedKey := session.VerifyChallenge(pin, server);
      if sharedKey.Err? {
        return Err(SessionFailure(sharedKey.error));
      }
      var written := store.WriteConfig(LoginInput(username, sharedKey.value, remoteHost, remotePort), now, faults);
      r := if written.Ok? then Ok(()) else Err(StoreFailure(written.error));
    }

    /** How a new client starts: the stored configuration, if readable, gives it user, key, host and port. */
    method Resume(options: ConfigModel.ReadOptions, managed: Option<ConfigModel.Managed>, now: int,
                  faults: ConfigModel.Faults)
      requires Valid() && !options.requireAuth
      modifies this, session, store
      ensures Valid()
      ensures var (kept, found) := ConfigModel.Read(store.machine, old(store.View()), options, managed, now, faults);
        && store.View() == kept
        && remoteHost == (if found.Ok? then found.value.host else ConfigModel.DEFAULT_HOST)
        && remotePort == (if found.Ok? then found.value.port else ConfigModel.DEFAULT_PORT)
        && (username, session.sharedKey) == Resumed(found, old(username), old(session.sharedKey))
        && session.View() ==
             old(session.View()).(username := session.username, sharedKey := session.sharedKey)
    {
      var found := store.ReadConfig(options, managed, now, faults);
      remoteHost := if found.Ok? then found.value.host else ConfigModel.DEFAULT_HOST;
      remotePort := if found.Ok? then found.value.port else ConfigModel.DEFAULT_PORT;
      if found.Ok? && found.value.username != "" && found.value.sharedKey != 0 {
        username := found.value.username;
        session.Restore(utf8(username), found.value.sharedKey);
      }
    }
  }

  /**
   * From the handshake to the next start: once an honest server has been verified and the
   * configuration written, a later read gives back the user and the server's session key,
   * exactly when the circumstances allow it; and a client that starts anew, under any name and
   * without a key, is then that user and holds that key.
   */
  lemma HonestLoginIsRemembered(
      grp: Group, hash: Hash, utf8: string -> seq<Bytes.Byte>, username: string, a: nat, pin: seq<Bytes.Byte>,
      lift: nat, b: nat, salt: nat, m: ConfigModel.Machine, s: ConfigModel.Store, host: string, port: nat, written: int,
      faults: ConfigModel.Faults, options: ConfigModel.ReadOptions, managed: Option<ConfigModel.Managed>, read: int,
      later: ConfigModel.Faults)
    requires grp.N > 1 && username != "" && ConfigModel.Lawful(m)
    ensures
      var v := Verifier(grp, hash, utf8(username), pin, salt, lift);
      var session := Challenged(grp, hash, utf8(username), a, v, b, salt, None);
      var server := HonestServer(grp, hash, utf8(username), v, b, ClientPublic(grp, a));
      var serverKey := HonestSessionKey(grp, hash, v, b, ClientPublic(grp, a));
      Verified(grp, hash, session, pin, server) && serverKey != 0 ==>
        var (after, config) := ConfigModel.Write(
          m, s, LoginInput(username, DerivedKey(grp, hash, session, pin).value, host, port), written, faults);
        config.Ok? ==>
          var found := ConfigModel.Read(m, after, options, managed, read, later).1;
          (ConfigModel.Retrievable(m, config.value, options, managed, read, later)
           <==> found.Ok? && found.value.username == username && found.value.sharedKey == serverKey)
          && (forall name: string :: !options.requireAuth ==>
                (ConfigModel.Retrievable(m, config.value, options, managed, read, later)
                 <==> Resumed(found, name, None) == (username, Some(serverKey))))
  {
    var v := Verifier(grp, hash, utf8(username), pin, salt, lift);
    var session := Challenged(grp, hash, utf8(username), a, v, b, salt, None);
    var server := HonestServer(grp, hash, utf8(username), v, b, ClientPublic(grp, a));
    HonestServerIsAccepted(grp, hash, utf8(username), a, pin, lift, b, salt, None);
    if Verified(grp, hash, session, pin, server) && HonestSessionKey(grp, hash, v, b, ClientPublic(grp, a)) != 0 {
      var input := LoginInput(username, DerivedKey(grp, hash, session, pin).value, host, port);
      if ConfigModel.Write(m, s, input, written, faults).1.Ok? {
        ConfigModel.LoginRoundTrip(m, s, input, written, faults, options, managed, read, later);
      }
    }
  }
}

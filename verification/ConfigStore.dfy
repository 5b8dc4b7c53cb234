/**
 * The configuration store as `rust/src/utils.rs` runs it: step by step over the file and the
 * keychain. Every method is proved to do what the functions of ConfigModel say.
 */
module ConfigStore {
  import opened Wrappers
  import opened ConfigModel

  lemma StepKeepsSound(m: Machine, s: Store, op: Operation)
    ensures Sound(m, s) ==> Sound(m, Apply(m, s, op))
  {
    if Sound(m, s) {
      ApplyKeepsSound(m, s, op);
    }
  }

  class ConfigStore {
    const machine: Machine
    var file: FileState
    var keychain: map<string, string>

    ghost function View(): Store
      reads this
    {
      Store(file, keychain)
    }

    constructor (machine: Machine, keychain: map<string, string>)
      ensures View() == Store(Absent, keychain) && this.machine == machine
      ensures Sound(machine, View())
    {
      this.machine := machine;
      this.file := Absent;
      this.keychain := keychain;
    }

    method DeleteSharedKey(username: string, faults: Faults)
      modifies this`keychain
      ensures keychain == DeleteKey(machine, old(keychain), username, faults)
    {
      if username != "" && machine.supportsKeychain && !faults.keychainDelete {
        keychain := keychain - {username};
      }
    }

    /** Fails without touching the keychain. */
    method WriteSharedKey(username: string, secret: string, faults: Faults) returns (ok: bool)
      modifies this`keychain
      ensures ok == (username != "" && secret != "" && machine.supportsKeychain && !faults.keychainWrite)
      ensures keychain == if ok then old(keychain)[username := secret] else old(keychain)
    {
      ok := username != "" && secret != "" && machine.supportsKeychain && !faults.keychainWrite;
      if ok {
        keychain := keychain[username := secret];
      }
    }

    method ClearConfig(faults: Faults)
      modifies this
      ensures View() == Clear(machine, old(View()), faults)
      ensures old(Sound(machine, View())) ==> Sound(machine, View())
    {
      StepKeepsSound(machine, View(), ClearOp(faults));
      match BodyText(file) {
        case Current(c) =>
          if c.secretSource == Some(Keychain) && c.username != "" {
            DeleteSharedKey(c.username, faults);
          }
        case Old(legacy) =>
          if OrElse(legacy.sharedKey, "") != "" && legacy.username.Some? {
            DeleteSharedKey(legacy.username.value, faults);
          }
        case _ =>
      }
      if !file.Directory? && !faults.removal {
        file := Absent;
      }
    }

    method ReadUserConfigFile(now: int, faults: Faults) returns (result: Result<Config, Status>)
      modifies this
      ensures (View(), result) == ReadUser(machine, old(View()), now, faults)
    {
      if file.Absent? {
        return Err(InvalidConfig);
      }
      if !file.Regular? || file.size > MAX_CONFIG_SIZE_BYTES {
        ClearConfig(faults);
        return Err(InvalidConfig);
      }
      match file.body {
        case NotText =>
          return Err(InvalidConfig);
        case InvalidJson =>
          ClearConfig(faults);
          return Err(InvalidConfig);
        case Current(c) =>
          if c.schema != CONFIG_SCHEMA || !ValidPort(c.port) || !ValidHost(c.host) {
            ClearConfig(faults);
            return Err(InvalidConfig);
          }
          return ValidateProvider(machine, c);
        case Old(legacy) =>
          return Ok(Normalize(legacy, now));
        case Unrecognised =>
          return Err(InvalidConfig);
      }
    }

    method ReadConfigFile(managed: Option<Managed>, now: int, faults: Faults) returns (result: Result<Config, Status>)
      modifies this
      ensures (View(), result) == ReadFile(machine, old(View()), managed, now, faults)
    {
      var present := !file.Absent?;
      var user := ReadUserConfigFile(now, faults);
      if user.Ok? {
        return ValidateProvider(machine, Effective(user.value, managed));
      }
      if managed.Some? && !present {
        return ValidateProvider(machine, Overlay(Fresh(now), managed.value));
      }
      return user;
    }

    method ReadConfig(options: ReadOptions, managed: Option<Managed>, now: int, faults: Faults)
      returns (result: Result<Runtime, Status>)
      modifies this
      ensures (View(), result) == Read(machine, old(View()), options, managed, now, faults)
      ensures old(Sound(machine, View())) ==> Sound(machine, View())
    {
      StepKeepsSound(machine, View(), ReadOp(options, managed, now, faults));
      var file := ReadConfigFile(managed, now, faults);
      if file.Err? {
        return if options.requireAuth then Err(file.error) else Ok(EmptyRuntime());
      }
      var raw := file.value;
      if !ValidPort(raw.port) || !ValidHost(raw.host) {
        ClearConfig(faults);
        return if options.requireAuth then Err(InvalidConfig) else Ok(EmptyRuntime());
      }
      if Stale(raw.createdAt, options.maxAgeMs, now) && !options.ignoreExpiry {
        ClearConfig(faults);
        return if options.requireAuth then Err(InvalidSession) else Ok(RuntimeOf(raw, 0));
      }
      var key := 0;
      var secret := StoredSecret(machine, Store(this.file, keychain), raw, faults);
      if secret.Some? {
        var read := ReadKey(machine, secret.value);
        if read.None? {
          ClearConfig(faults);
          return Err(InvalidConfig);
        }
        key := read.value;
      }
      if options.requireAuth && (raw.username == "" || key == 0) {
        ClearConfig(faults);
        return Err(InvalidSession);
      }
      return Ok(RuntimeOf(raw, key));
    }

    /** Puts the secret in its place: where it lives, and its text if that is the file. */
    method PlaceSecret(input: Input, existing: Option<Config>, username: string, faults: Faults)
      returns (placed: Option<(SecretSource, string)>)
      requires username == TargetUsername(input, existing)
      modifies this`keychain
      ensures var cleared := ClearedFirst(machine, old(keychain), input, existing, faults);
              var wanted := KeychainAfter(machine, old(keychain), input, existing, faults);
        && keychain == OrElse(wanted, cleared)
        && placed == if wanted.None? then None else Some(TargetSecret(machine, input, existing))
    {
      var source := File;
      var sharedKey := "";
      if !input.clearAuth && existing.Some? {
        source := OrElse(existing.value.secretSource, File);
        sharedKey := existing.value.sharedKey;
      }
      if input.clearAuth && KeychainBacked(existing) && existing.value.username != "" {
        DeleteSharedKey(existing.value.username, faults);
      }
      if input.sharedKey.Some? {
        if username != "" && machine.supportsKeychain {
          var ok := WriteSharedKey(username, KeyText(machine, input.sharedKey.value), faults);
          if !ok {
            return None;
          }
          source := Keychain;
          sharedKey := "";
        } else {
          source := File;
          sharedKey := KeyText(machine, input.sharedKey.value);
        }
      } else if input.allowEmpty && KeychainBacked(existing) && username != "" {
        DeleteSharedKey(username, faults);
        sharedKey := "";
        source := Keychain;
      } else {
        // The source's remaining branch wants no existing file and a keychain secret: never both.
        assert existing.None? ==> source == File;
      }
      return Some((source, sharedKey));
    }

    method WriteConfig(input: Input, now: int, faults: Faults) returns (result: Result<Config, Status>)
      modifies this
      ensures (View(), result) == Write(machine, old(View()), input, now, faults)
      ensures old(Sound(machine, View())) ==> Sound(machine, View())
    {
      StepKeepsSound(machine, View(), WriteOp(input, now, faults));
      if faults.directory {
        return Err(InvalidConfig);
      }
      var user := ReadUserConfigFile(now, faults);
      var checked := if user.Ok? then ValidateProvider(machine, user.value) else user;
      var existing := if checked.Ok? then Some(checked.value) else None;
      var username := TargetUsername(input, existing);
      if !ValidPort(TargetPort(input, existing)) || !ValidHost(TargetHost(input, existing)) {
        return Err(InvalidParam);
      }
      if !input.allowEmpty && username == "" {
        return Err(InvalidConfig);
      }
      var placed := PlaceSecret(input, existing, username, faults);
      if placed.None? {
        return Err(InvalidConfig);
      }
      var source, sharedKey := placed.value.0, placed.value.1;
      if !input.allowEmpty {
        if username == "" || (source == File && sharedKey == "") {
          return Err(InvalidConfig);
        }
        if source == Keychain && !machine.supportsKeychain {
          source := File;
        }
      }
      var updated := Updated(input, existing, source, sharedKey, now);
      if machine.size(updated) > MAX_CONFIG_SIZE_BYTES || faults.disk || file.Directory? {
        return Err(InvalidConfig);
      }
      file := Regular(machine.size(updated), Current(updated));
      return Ok(updated);
    }
  }
}

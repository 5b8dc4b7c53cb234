/**
 * The configuration file and the keychain behind it (`rust/src/utils.rs`), as values:
 * what reading, writing and clearing do to the pair, and what sequences of them keep.
 */
module ConfigModel {
  import opened Wrappers
  import opened Bytes
  import opened Text

  const CONFIG_SCHEMA := 1
  const DEFAULT_PORT: nat := 10000
  const DEFAULT_HOST := "127.0.0.1"
  const MAX_CONFIG_SIZE_BYTES: nat := 10 * 1024

  datatype Status = InvalidConfig | InvalidParam | InvalidSession

  datatype SecretSource = File | Keychain

  /** A timestamp in nanoseconds, or text that is not one. */
  datatype Stamp = At(ns: int) | Unparsable

  datatype RuntimeMode = Auto | Disabled

  datatype Providers = Providers(
    supportedDomains: seq<string>, provider: Option<string>, path: Option<string>, database: Option<string>,
    timeoutMs: Option<nat>, maxInvocations: Option<nat>, disableDemo: Option<bool>)

  datatype Launch = Launch(status: Option<string>, error: Option<string>, strategy: Option<string>)

  datatype BridgeInfo = BridgeInfo(
    status: Option<string>, browser: Option<string>, connectedAt: Option<string>, lastError: Option<string>)

  datatype Config = Config(
    schema: int, port: nat, host: string, username: string, sharedKey: string, secretSource: Option<SecretSource>,
    runtimeMode: RuntimeMode, launch: Launch, bridge: BridgeInfo, createdAt: Stamp, providers: Providers)

  /** The file format before schemas. */
  datatype Legacy = Legacy(
    port: Option<nat>, sharedKey: Option<string>, username: Option<string>, host: Option<string>,
    createdAt: Option<Stamp>)

  datatype Body = NotText | InvalidJson | Current(config: Config) | Old(legacy: Legacy) | Unrecognised

  datatype FileState = Absent | Directory | Link(target: Body) | Regular(size: nat, body: Body)

  datatype Store = Store(file: FileState, keychain: map<string, string>)

  /**
   * The machine: whether it has a keychain, the base64 library, the length of a serialized
   * configuration, and the path check for a provider (the canonical path, if acceptable).
   */
  datatype Machine = Machine(
    supportsKeychain: bool,
    encode: seq<Byte> -> string,
    decode: string -> Option<seq<Byte>>,
    size: Config -> nat,
    canonical: (string, string) -> Option<string>)

  ghost predicate Lawful(m: Machine) {
    && (forall bs :: m.decode(m.encode(bs)) == Some(bs))
    && (forall bs :: bs != [] ==> m.encode(bs) != "")
    && (forall p, path :: m.canonical(p, path).Some? ==>
          m.canonical(p, m.canonical(p, path).value) == m.canonical(p, path))
  }

  /** What fails during one operation. */
  datatype Faults = Faults(
    keychainRead: bool, keychainWrite: bool, keychainDelete: bool, directory: bool, removal: bool, disk: bool)

  function KeyText(m: Machine, key: nat): string {
    m.encode(ToBytes(key))
  }

  function ReadKey(m: Machine, text: string): Option<nat> {
    var bytes := m.decode(text);
    if bytes.None? then None else Some(FromBytes(bytes.value))
  }

  lemma KeyTextRoundTrip(m: Machine, key: nat)
    requires Lawful(m)
    ensures ReadKey(m, KeyText(m, key)) == Some(key) && KeyText(m, key) != ""
  {
    NumberRoundTrip(key);
  }

  // ---------- validity ----------

  predicate ValidPort(port: nat) {
    port != 0
  }

  predicate ValidHost(host: string) {
    (exists i :: 0 <= i < |host| && !IsWhitespace(host[i])) && '\0' !in host
  }

  // ---------- reading ----------

  function NoLaunch(): Launch {
    Launch(None, None, None)
  }

  function NoBridge(): BridgeInfo {
    BridgeInfo(None, None, None, None)
  }

  function NoProviders(): Providers {
    Providers([], None, None, None, None, None, None)
  }

  function OrElse<T>(o: Option<T>, default: T): T {
    if o.Some? then o.value else default
  }

  function Normalize(legacy: Legacy, now: int): Config {
    var key := OrElse(legacy.sharedKey, "");
    Config(CONFIG_SCHEMA, OrElse(legacy.port, DEFAULT_PORT), OrElse(legacy.host, DEFAULT_HOST),
           OrElse(legacy.username, ""), key, if key != "" then Some(File) else None,
           Auto, NoLaunch(), NoBridge(), OrElse(legacy.createdAt, At(now)), NoProviders())
  }

  function ValidateProvider(m: Machine, c: Config): Result<Config, Status> {
    if c.providers.provider.None? then Ok(c)
    else if c.providers.path.None? then Err(InvalidConfig)
    else
      var path := m.canonical(c.providers.provider.value, c.providers.path.value);
      if path.None? then Err(InvalidConfig) else Ok(c.(providers := c.providers.(path := path)))
  }

  function DeleteKey(m: Machine, keychain: map<string, string>, username: string, faults: Faults): map<string, string> {
    if username == "" || !m.supportsKeychain || faults.keychainDelete then keychain else keychain - {username}
  }

  function BodyText(f: FileState): Body {
    match f
    case Link(target) => target
    case Regular(_, body) => body
    case _ => NotText
  }

  function Clear(m: Machine, s: Store, faults: Faults): Store {
    var body := BodyText(s.file);
    var keychain := match body
      case Current(c) =>
        if c.secretSource == Some(Keychain) then DeleteKey(m, s.keychain, c.username, faults) else s.keychain
      case Old(legacy) =>
        if OrElse(legacy.sharedKey, "") != "" && legacy.username.Some?
        then DeleteKey(m, s.keychain, legacy.username.value, faults) else s.keychain
      case _ => s.keychain;
    Store(if s.file.Directory? || faults.removal then s.file else Absent, keychain)
  }

  /** `read_user_config_file_or_null`: a file that cannot be a configuration is cleared away. */
  function ReadUser(m: Machine, s: Store, now: int, faults: Faults): (Store, Result<Config, Status>) {
    match s.file
    case Absent => (s, Err(InvalidConfig))
    case Directory => (Clear(m, s, faults), Err(InvalidConfig))
    case Link(_) => (Clear(m, s, faults), Err(InvalidConfig))
    case Regular(size, body) =>
      if size > MAX_CONFIG_SIZE_BYTES then (Clear(m, s, faults), Err(InvalidConfig))
      else match body
        case NotText => (s, Err(InvalidConfig))
        case InvalidJson => (Clear(m, s, faults), Err(InvalidConfig))
        case Current(c) =>
          if c.schema != CONFIG_SCHEMA || !ValidPort(c.port) || !ValidHost(c.host)
          then (Clear(m, s, faults), Err(InvalidConfig))
          else (s, ValidateProvider(m, c))
        case Old(legacy) => (s, Ok(Normalize(legacy, now)))
        case Unrecognised => (s, Err(InvalidConfig))
  }

  /** What a write starts from: the validated configuration, if one can be read. */
  function ReadExisting(m: Machine, s: Store, now: int, faults: Faults): (Store, Option<Config>) {
    var (t, user) := ReadUser(m, s, now, faults);
    var checked := if user.Ok? then ValidateProvider(m, user.value) else user;
    (t, if checked.Ok? then Some(checked.value) else None)
  }

  /** Settings pushed by an administrator. */
  datatype Managed = Managed(
    provider: Option<string>, path: Option<string>, timeoutMs: Option<nat>, maxInvocations: Option<nat>,
    supportedDomains: Option<seq<string>>, disableDemo: Option<bool>)

  function Pick<T>(first: Option<T>, second: Option<T>): Option<T> {
    if first.Some? then first else second
  }

  function Overlay(c: Config, managed: Managed): Config {
    c.(providers := Providers(
      OrElse(managed.supportedDomains, c.providers.supportedDomains), Pick(managed.provider, c.providers.provider),
      Pick(managed.path, c.providers.path), c.providers.database, Pick(managed.timeoutMs, c.providers.timeoutMs),
      Pick(managed.maxInvocations, c.providers.maxInvocations), Pick(managed.disableDemo, c.providers.disableDemo)))
  }

  /** A configuration under the administrator's settings, if there are any. */
  function Effective(c: Config, managed: Option<Managed>): Config {
    if managed.Some? then Overlay(c, managed.value) else c
  }

  function Fresh(now: int): Config {
    Config(CONFIG_SCHEMA, DEFAULT_PORT, DEFAULT_HOST, "", "", Some(File), Auto, NoLaunch(), NoBridge(), At(now),
           NoProviders())
  }

  /** `read_config_file`. */
  function ReadFile(m: Machine, s: Store, managed: Option<Managed>, now: int, faults: Faults)
    : (Store, Result<Config, Status>)
  {
    var (t, user) := ReadUser(m, s, now, faults);
    if user.Ok? then (t, ValidateProvider(m, Effective(user.value, managed)))
    else if managed.Some? && s.file.Absent? then (t, ValidateProvider(m, Overlay(Fresh(now), managed.value)))
    else (t, user)
  }

  /** A `u64` reinterpreted as `i64`. */
  function AsSigned(age: nat): int {
    if age < 0x8000_0000_0000_0000 then age else age - 0x1_0000_0000_0000_0000
  }

  predicate Stale(created: Stamp, maxAgeMs: nat, now: int) {
    created.Unparsable? || created.ns > now || (now - created.ns) / 1_000_000 > AsSigned(maxAgeMs)
  }

  function ResolveSource(c: Config): SecretSource {
    if c.secretSource.Some? then c.secretSource.value
    else if c.sharedKey == "" then Keychain else File
  }

  /** The stored secret, wherever it lives. */
  function StoredSecret(m: Machine, s: Store, c: Config, faults: Faults): Option<string> {
    var inFile := if c.sharedKey == "" then None else Some(c.sharedKey);
    match ResolveSource(c)
    case File => inFile
    case Keychain =>
      if c.username == "" then None
      else if m.supportsKeychain && !faults.keychainRead && c.username in s.keychain then Some(s.keychain[c.username])
      else inFile
  }

  datatype ReadOptions = ReadOptions(requireAuth: bool, maxAgeMs: nat, ignoreExpiry: bool)

  /** The runtime view of a configuration: the key is a number, zero when there is none. */
  datatype Runtime = Runtime(
    port: nat, host: string, username: string, sharedKey: nat, runtimeMode: RuntimeMode,
    launch: Launch, bridge: BridgeInfo, createdAt: Stamp, providers: Providers)

  function RuntimeOf(c: Config, key: nat): Runtime {
    Runtime(c.port, c.host, c.username, key, c.runtimeMode, c.launch, c.bridge, c.createdAt, c.providers)
  }

  function EmptyRuntime(): Runtime {
    RuntimeOf(Fresh(0), 0)
  }

  /** `read_config`. */
  function Read(m: Machine, s: Store, options: ReadOptions, managed: Option<Managed>, now: int, faults: Faults)
    : (Store, Result<Runtime, Status>)
  {
    var (t, file) := ReadFile(m, s, managed, now, faults);
    if file.Err? then (t, if options.requireAuth then Err(file.error) else Ok(EmptyRuntime()))
    else
      var raw := file.value;
      if !ValidPort(raw.port) || !ValidHost(raw.host) then
        (Clear(m, t, faults), if options.requireAuth then Err(InvalidConfig) else Ok(EmptyRuntime()))
      else if Stale(raw.createdAt, options.maxAgeMs, now) && !options.ignoreExpiry then
        (Clear(m, t, faults), if options.requireAuth then Err(InvalidSession) else Ok(RuntimeOf(raw, 0)))
      else
        var secret := StoredSecret(m, t, raw, faults);
        var key := if secret.None? then Some(0) else ReadKey(m, secret.value);
        if key.None? then (Clear(m, t, faults), Err(InvalidConfig))
        else if options.requireAuth && (raw.username == "" || key.value == 0) then
          (Clear(m, t, faults), Err(InvalidSession))
        else (t, Ok(RuntimeOf(raw, key.value)))
  }

  // ---------- writing ----------

  datatype Input = Input(
    username: Option<string>, sharedKey: Option<nat>, port: Option<nat>, host: Option<string>,
    allowEmpty: bool, clearAuth: bool, runtimeMode: Option<RuntimeMode>,
    launch: Launch, bridge: BridgeInfo, resetLaunch: bool, resetBridge: bool, refreshCreatedAt: bool)

  function TargetPort(input: Input, existing: Option<Config>): nat {
    if input.port.Some? then input.port.value
    else if existing.Some? then existing.value.port else DEFAULT_PORT
  }

  function TargetHost(input: Input, existing: Option<Config>): string {
    if input.host.Some? && ValidHost(input.host.value) then input.host.value
    else if existing.Some? then existing.value.host else DEFAULT_HOST
  }

  function TargetUsername(input: Input, existing: Option<Config>): string {
    if input.username.Some? then input.username.value
    else if existing.Some? && !input.clearAuth then existing.value.username else ""
  }

  predicate KeychainBacked(existing: Option<Config>) {
    existing.Some? && existing.value.secretSource == Some(Keychain)
  }

  /** Where the secret of the written configuration lives, and its text if it lives in the file. */
  function TargetSecret(m: Machine, input: Input, existing: Option<Config>): (SecretSource, string) {
    var username := TargetUsername(input, existing);
    if input.sharedKey.Some? then
      if username != "" && m.supportsKeychain then (Keychain, "") else (File, KeyText(m, input.sharedKey.value))
    else if input.allowEmpty && KeychainBacked(existing) && username != "" then (Keychain, "")
    else if input.clearAuth || existing.None? then (File, "")
    else (OrElse(existing.value.secretSource, File), existing.value.sharedKey)
  }

  /** The keychain once a sign-out has dropped the previous session's key. */
  function ClearedFirst(m: Machine, keychain: map<string, string>, input: Input, existing: Option<Config>,
                        faults: Faults)
    : map<string, string>
  {
    if input.clearAuth && KeychainBacked(existing)
    then DeleteKey(m, keychain, existing.value.username, faults)
    else keychain
  }

  /** The keychain after the secret has been put in its place, unless storing it fails. */
  function KeychainAfter(m: Machine, keychain: map<string, string>, input: Input, existing: Option<Config>,
                         faults: Faults)
    : Option<map<string, string>>
  {
    var username := TargetUsername(input, existing);
    var cleared := ClearedFirst(m, keychain, input, existing, faults);
    if input.sharedKey.Some? then
      if username != "" && m.supportsKeychain then
        if faults.keychainWrite || KeyText(m, input.sharedKey.value) == "" then None
        else Some(cleared[username := KeyText(m, input.sharedKey.value)])
      else Some(cleared)
    else if input.allowEmpty && KeychainBacked(existing) && username != "" then
      Some(DeleteKey(m, cleared, username, faults))
    else Some(cleared)
  }

  function MergeText(next: Option<string>, reset: bool, previous: Option<string>): Option<string> {
    if next.Some? then next else if reset then None else previous
  }

  function TargetLaunch(input: Input, existing: Option<Config>): Launch {
    var prior := if existing.Some? then existing.value.launch else NoLaunch();
    Launch(MergeText(input.launch.status, input.resetLaunch, prior.status),
           MergeText(input.launch.error, input.resetLaunch, prior.error),
           MergeText(input.launch.strategy, input.resetLaunch, prior.strategy))
  }

  function TargetBridge(input: Input, existing: Option<Config>): BridgeInfo {
    var prior := if existing.Some? then existing.value.bridge else NoBridge();
    BridgeInfo(MergeText(input.bridge.status, input.resetBridge, prior.status),
               MergeText(input.bridge.browser, input.resetBridge, prior.browser),
               MergeText(input.bridge.connectedAt, input.resetBridge, prior.connectedAt),
               MergeText(input.bridge.lastError, input.resetBridge, prior.lastError))
  }

  /** The configuration written once the place of its secret is settled. */
  function Updated(input: Input, existing: Option<Config>, source: SecretSource, sharedKey: string, now: int): Config {
    Config(CONFIG_SCHEMA, TargetPort(input, existing), TargetHost(input, existing), TargetUsername(input, existing),
           sharedKey, Some(source),
           if input.runtimeMode.Some? then input.runtimeMode.value
           else if existing.Some? then existing.value.runtimeMode else Auto,
           TargetLaunch(input, existing), TargetBridge(input, existing),
           if input.refreshCreatedAt || input.clearAuth || existing.None? then At(now) else existing.value.createdAt,
           if existing.Some? then existing.value.providers else NoProviders())
  }

  /** The configuration a write would persist. */
  function Target(m: Machine, input: Input, existing: Option<Config>, now: int): Config {
    var (source, key) := TargetSecret(m, input, existing);
    Updated(input, existing,
            if !input.allowEmpty && source == Keychain && !m.supportsKeychain then File else source, key, now)
  }

  predicate Incomplete(m: Machine, input: Input, existing: Option<Config>) {
    var (source, key) := TargetSecret(m, input, existing);
    !input.allowEmpty && (TargetUsername(input, existing) == "" || (source == File && key == ""))
  }

  /** `write_config`. */
  function Write(m: Machine, s: Store, input: Input, now: int, faults: Faults): (Store, Result<Config, Status>) {
    var (t, existing) := ReadExisting(m, s, now, faults);
    if faults.directory then (s, Err(InvalidConfig))
    else if !ValidPort(TargetPort(input, existing)) || !ValidHost(TargetHost(input, existing)) then
      (t, Err(InvalidParam))
    else if !input.allowEmpty && TargetUsername(input, existing) == "" then (t, Err(InvalidConfig))
    else
      var keychain := KeychainAfter(m, t.keychain, input, existing, faults);
      if keychain.None? then
        (t.(keychain := ClearedFirst(m, t.keychain, input, existing, faults)), Err(InvalidConfig))
      else
        var stored := t.(keychain := keychain.value);
        var target := Target(m, input, existing, now);
        if Incomplete(m, input, existing) || m.size(target) > MAX_CONFIG_SIZE_BYTES || faults.disk || t.file.Directory?
        then (stored, Err(InvalidConfig))
        else (stored.(file := Regular(m.size(target), Current(target))), Ok(target))
  }

  // ---------- a write, then a read ----------

  lemma ExistingIsValidated(m: Machine, s: Store, now: int, faults: Faults)
    requires Lawful(m)
    ensures var e := ReadExisting(m, s, now, faults).1;
      e.Some? ==> ValidateProvider(m, e.value) == Ok(e.value)
  {
  }

  /** The circumstances under which a stored configuration is given back with its key. */
  ghost predicate Retrievable(m: Machine, c: Config, options: ReadOptions, managed: Option<Managed>, now: int,
                              faults: Faults) {
    && ValidateProvider(m, Effective(c, managed)).Ok?
    && (options.ignoreExpiry || !Stale(c.createdAt, options.maxAgeMs, now))
    && (m.supportsKeychain ==> !faults.keychainRead)
  }

  /**
   * After a successful login write, a read gives the key back exactly when the provider path
   * validates, the session has not expired and a keychain that holds the key answers; it then
   * leaves the store alone and gives back user, host and port too, whether the key went to the
   * keychain or into the file. Otherwise a read that requires authentication fails.
   */
  lemma LoginRoundTrip(m: Machine, s: Store, input: Input, written: int, faults: Faults,
                       options: ReadOptions, managed: Option<Managed>, read: int, later: Faults)
    requires Lawful(m)
    requires input.username.Some? && input.username.value != "" && input.sharedKey.Some? && input.sharedKey.value != 0
    requires input.refreshCreatedAt
    requires Write(m, s, input, written, faults).1.Ok?
    ensures var (after, config) := Write(m, s, input, written, faults);
            var (kept, runtime) := Read(m, after, options, managed, read, later);
      && config.value.createdAt == At(written)
      && (Retrievable(m, config.value, options, managed, read, later)
          <==> runtime.Ok? && runtime.value.sharedKey == input.sharedKey.value)
      && (Retrievable(m, config.value, options, managed, read, later) ==>
            && kept == after && runtime.value.username == input.username.value
            && runtime.value.port == config.value.port && runtime.value.host == config.value.host
            && (input.port.Some? ==> runtime.value.port == input.port.value)
            && (input.host.Some? && ValidHost(input.host.value) ==> runtime.value.host == input.host.value))
      && (!Retrievable(m, config.value, options, managed, read, later) ==>
            if options.requireAuth then runtime.Err? else runtime.Ok? && runtime.value.sharedKey == 0)
  {
    var key := input.sharedKey.value;
    KeyTextRoundTrip(m, key);
    LoginIsStored(m, s, input, written, faults);
    var (after, config) := Write(m, s, input, written, faults);
    StoredIsRead(m, after, config.value, options, managed, read, later, KeyText(m, key));
  }

  /** How long that is, in nanoseconds: the last whole millisecond of the maximum age still counts. */
  lemma FreshFor(created: int, maxAgeMs: nat, now: int)
    requires maxAgeMs < 0x1_0000_0000_0000_0000
    ensures !Stale(At(created), maxAgeMs, now) <==>
      maxAgeMs < 0x8000_0000_0000_0000 && created <= now < created + (maxAgeMs + 1) * 1_000_000
  {
    if created <= now {
      var age := now - created;
      assert age / 1_000_000 <= maxAgeMs <==> age < (maxAgeMs + 1) * 1_000_000;
    }
  }

  /**
   * A login lasts from the moment it is written up to, not including, one millisecond past the
   * maximum age; a clock that has gone back ends it at once, and so does a maximum of 2^63
   * milliseconds or more, which the code reads as negative. After that the read fails, or gives
   * no key if none was required, and the file is gone.
   */
  lemma LoginLifetime(m: Machine, s: Store, input: Input, written: int, faults: Faults,
                      options: ReadOptions, managed: Option<Managed>, read: int, later: Faults)
    requires Lawful(m)
    requires input.username.Some? && input.username.value != "" && input.sharedKey.Some? && input.sharedKey.value != 0
    requires input.refreshCreatedAt
    requires Write(m, s, input, written, faults).1.Ok?
    requires ValidateProvider(m, Effective(Write(m, s, input, written, faults).1.value, managed)).Ok?
    requires m.supportsKeychain ==> !later.keychainRead
    requires options.maxAgeMs < 0x1_0000_0000_0000_0000
    ensures var (kept, runtime) := Read(m, Write(m, s, input, written, faults).0, options, managed, read, later);
            var given := runtime.Ok? && runtime.value.sharedKey == input.sharedKey.value;
      && (given <==>
            options.ignoreExpiry
            || (options.maxAgeMs < 0x8000_0000_0000_0000
                && written <= read < written + (options.maxAgeMs + 1) * 1_000_000))
      && (!given ==>
            && (if options.requireAuth then runtime == Err(InvalidSession)
                else runtime.Ok? && runtime.value.sharedKey == 0)
            && (kept.file.Absent? <==> !later.removal))
  {
    LoginRoundTrip(m, s, input, written, faults, options, managed, read, later);
    FreshFor(written, options.maxAgeMs, read);
    if Stale(At(written), options.maxAgeMs, read) && !options.ignoreExpiry {
      ExpiryClears(m, s, input, written, faults, options, managed, read, later);
    }
  }

  lemma ExpiryClears(m: Machine, s: Store, input: Input, written: int, faults: Faults,
                     options: ReadOptions, managed: Option<Managed>, read: int, later: Faults)
    requires Lawful(m) && Write(m, s, input, written, faults).1.Ok?
    requires ValidateProvider(m, Effective(Write(m, s, input, written, faults).1.value, managed)).Ok?
    requires Stale(Write(m, s, input, written, faults).1.value.createdAt, options.maxAgeMs, read)
             && !options.ignoreExpiry
    ensures var (kept, runtime) := Read(m, Write(m, s, input, written, faults).0, options, managed, read, later);
      && (options.requireAuth ==> runtime == Err(InvalidSession))
      && (kept.file.Absent? <==> !later.removal)
  {
    WrittenIsOpened(m, s, input, written, faults, read, later);
    var (after, config) := Write(m, s, input, written, faults);
    StaleReadClears(m, after, config.value, options, managed, read, later);
  }

  lemma WrittenIsOpened(m: Machine, s: Store, input: Input, now: int, faults: Faults, read: int, later: Faults)
    requires Lawful(m) && Write(m, s, input, now, faults).1.Ok?
    ensures var (after, config) := Write(m, s, input, now, faults);
      && ReadUser(m, after, read, later) == (after, config) && after.file.Regular?
      && ValidPort(config.value.port) && ValidHost(config.value.host)
  {
    ExistingIsValidated(m, s, now, faults);
  }

  lemma StaleReadClears(m: Machine, s: Store, c: Config, options: ReadOptions, managed: Option<Managed>, now: int,
                        faults: Faults)
    requires ReadUser(m, s, now, faults) == (s, Ok(c)) && s.file.Regular? && ValidPort(c.port) && ValidHost(c.host)
    requires ValidateProvider(m, Effective(c, managed)).Ok?
    requires Stale(c.createdAt, options.maxAgeMs, now) && !options.ignoreExpiry
    ensures var (kept, runtime) := Read(m, s, options, managed, now, faults);
      (options.requireAuth ==> runtime == Err(InvalidSession)) && (kept.file.Absent? <==> !faults.removal)
  {
  }

  /** Whatever was written, of any kind, is what the next read of the file returns, and it clears nothing. */
  lemma WrittenIsRead(m: Machine, s: Store, input: Input, now: int, faults: Faults, read: int, later: Faults)
    requires Lawful(m) && Write(m, s, input, now, faults).1.Ok?
    ensures var (after, config) := Write(m, s, input, now, faults);
      ReadFile(m, after, None, read, later) == (after, Ok(config.value))
  {
    ExistingIsValidated(m, s, now, faults);
  }

  /** What was given, or nothing if it was reset, or what was there. */
  predicate Merged(given: Option<string>, reset: bool, before: Option<string>, after: Option<string>) {
    && (given.Some? ==> after == given)
    && (given.None? && reset ==> after.None?)
    && (given.None? && !reset ==> after == before)
  }

  predicate Stores<T(==)>(given: Option<T>, before: T, after: T) {
    after == if given.Some? then given.value else before
  }

  /** What a write has to go by: the configuration that can be read, or the defaults. */
  function Basis(found: Result<Config, Status>, now: int): Config {
    if found.Ok? then found.value
    else Config(1, 10000, "127.0.0.1", "", "", None, Auto, Launch(None, None, None), BridgeInfo(None, None, None, None),
                At(now), Providers([], None, None, None, None, None, None))
  }

  /**
   * From one read to the next: after a successful write each setting is the one given, or else
   * the one read before, or else the default; an invalid host counts as not given.
   */
  lemma WriteStoresSettings(m: Machine, s: Store, input: Input, now: int, faults: Faults, read: int, later: Faults)
    requires Lawful(m) && Write(m, s, input, now, faults).1.Ok?
    ensures var before := Basis(ReadFile(m, s, None, now, faults).1, now);
            var after := ReadFile(m, Write(m, s, input, now, faults).0, None, read, later).1;
      && after.Ok?
      && Stores(input.port, before.port, after.value.port)
      && Stores(if input.host.Some? && ValidHost(input.host.value) then input.host else None,
                before.host, after.value.host)
      && Stores(input.runtimeMode, before.runtimeMode, after.value.runtimeMode)
      && Stores(input.username, if input.clearAuth then "" else before.username, after.value.username)
      && Stores(if input.refreshCreatedAt || input.clearAuth then Some(At(now)) else None,
                before.createdAt, after.value.createdAt)
      && after.value.providers == before.providers
  {
    WrittenIsRead(m, s, input, now, faults, read, later);
    ReadBeforeWrite(m, s, now, faults);
  }

  /** The same for what is reported about the launch and the bridge, which a write may also reset. */
  lemma WriteStoresReports(m: Machine, s: Store, input: Input, now: int, faults: Faults, read: int, later: Faults)
    requires Lawful(m) && Write(m, s, input, now, faults).1.Ok?
    ensures var before := Basis(ReadFile(m, s, None, now, faults).1, now);
            var after := ReadFile(m, Write(m, s, input, now, faults).0, None, read, later).1;
      && after.Ok?
      && Merged(input.launch.status, input.resetLaunch, before.launch.status, after.value.launch.status)
      && Merged(input.launch.error, input.resetLaunch, before.launch.error, after.value.launch.error)
      && Merged(input.launch.strategy, input.resetLaunch, before.launch.strategy, after.value.launch.strategy)
      && Merged(input.bridge.status, input.resetBridge, before.bridge.status, after.value.bridge.status)
      && Merged(input.bridge.browser, input.resetBridge, before.bridge.browser, after.value.bridge.browser)
      && Merged(input.bridge.connectedAt, input.resetBridge, before.bridge.connectedAt, after.value.bridge.connectedAt)
      && Merged(input.bridge.lastError, input.resetBridge, before.bridge.lastError, after.value.bridge.lastError)
  {
    WrittenIsRead(m, s, input, now, faults, read, later);
    ReadBeforeWrite(m, s, now, faults);
  }

  lemma ReadBeforeWrite(m: Machine, s: Store, now: int, faults: Faults)
    requires Lawful(m)
    ensures var found := ReadFile(m, s, None, now, faults).1;
      ReadExisting(m, s, now, faults).1 == if found.Ok? then Some(found.value) else None
  {
  }

  /**
   * A write that may not leave an empty configuration leaves a user, and a key or a keychain to
   * look for it, with one exception: it moves a keychain-backed configuration to the file, where
   * there is no key, when the machine has no keychain. A refused write leaves the file.
   */
  lemma WriteIsComplete(m: Machine, s: Store, input: Input, now: int, faults: Faults)
    requires Lawful(m) && !input.allowEmpty
    ensures var before := ReadFile(m, s, None, now, faults).1;
            var (after, config) := Write(m, s, input, now, faults);
      && (config.Ok? ==>
            && config.value.username != ""
            && (config.value.secretSource == Some(File) && config.value.sharedKey == "" <==>
                  input.sharedKey.None? && !m.supportsKeychain && before.Ok?
                  && before.value.secretSource == Some(Keychain) && before.value.sharedKey == ""))
      && (config.Err? ==> after.file == s.file || after.file.Absent?)
  {
    ReadBeforeWrite(m, s, now, faults);
    if Write(m, s, input, now, faults).1.Err? {
      RefusedLeavesFile(m, s, input, now, faults);
    }
    if input.sharedKey.Some? {
      KeyTextRoundTrip(m, input.sharedKey.value);
    }
    var existing := ReadExisting(m, s, now, faults).1;
    if Write(m, s, input, now, faults).1.Ok? {
      WrittenIsTarget(m, s, input, now, faults);
      TargetIsComplete(m, input, existing, now);
    }
  }

  lemma RefusedLeavesFile(m: Machine, s: Store, input: Input, now: int, faults: Faults)
    requires Write(m, s, input, now, faults).1.Err?
    ensures var after := Write(m, s, input, now, faults).0; after.file == s.file || after.file.Absent?
  {
  }

  lemma WrittenIsTarget(m: Machine, s: Store, input: Input, now: int, faults: Faults)
    requires Write(m, s, input, now, faults).1.Ok?
    ensures var existing := ReadExisting(m, s, now, faults).1;
      Write(m, s, input, now, faults).1.value == Target(m, input, existing, now) && !Incomplete(m, input, existing)
  {
  }

  lemma TargetIsComplete(m: Machine, input: Input, existing: Option<Config>, now: int)
    requires !input.allowEmpty && !Incomplete(m, input, existing)
    requires input.sharedKey.Some? ==> KeyText(m, input.sharedKey.value) != ""
    ensures var target := Target(m, input, existing, now);
      && target.username != ""
      && (target.secretSource == Some(File) && target.sharedKey == "" <==>
            input.sharedKey.None? && !m.supportsKeychain && existing.Some?
            && existing.value.secretSource == Some(Keychain) && existing.value.sharedKey == "")
  {
  }

  /** When a login is stored: nothing fails on the way, port and host are valid, and the result is not too large. */
  lemma LoginSucceedsExactly(m: Machine, s: Store, input: Input, now: int, faults: Faults)
    requires Lawful(m) && !input.allowEmpty
    requires input.username.Some? && input.username.value != "" && input.sharedKey.Some?
    requires input.port.Some? && input.host.Some? && ValidHost(input.host.value)
    ensures Write(m, s, input, now, faults).1.Ok? <==>
      && !faults.directory && !faults.disk && input.port.value != 0
      && (m.supportsKeychain ==> !faults.keychainWrite)
      && !ReadUser(m, s, now, faults).0.file.Directory?
      && m.size(Target(m, input, ReadExisting(m, s, now, faults).1, now)) <= 10240
  {
    KeyTextRoundTrip(m, input.sharedKey.value);
  }

  /** A read that demands a login gives one: a user and a key. */
  lemma DemandedReadIsComplete(m: Machine, s: Store, options: ReadOptions, managed: Option<Managed>, now: int,
                               faults: Faults)
    requires options.requireAuth && Read(m, s, options, managed, now, faults).1.Ok?
    ensures var found := Read(m, s, options, managed, now, faults).1.value;
      found.username != "" && found.sharedKey != 0 && found.port != 0 && ValidHost(found.host)
  {
  }

  /**
   * What a read shows of the settings: those of the file, or, when there is no usable file and
   * none is demanded, the defaults. A setting of the administrator goes before the file's.
   */
  lemma ReadShowsFile(m: Machine, s: Store, options: ReadOptions, managed: Option<Managed>, now: int, faults: Faults)
    ensures var file, shown := ReadFile(m, s, managed, now, faults).1, Read(m, s, options, managed, now, faults).1;
      && (shown.Ok? && file.Ok? && ValidPort(file.value.port) && ValidHost(file.value.host) ==>
            && shown.value.port == file.value.port && shown.value.host == file.value.host
            && shown.value.username == file.value.username && shown.value.runtimeMode == file.value.runtimeMode
            && shown.value.launch == file.value.launch && shown.value.bridge == file.value.bridge
            && shown.value.createdAt == file.value.createdAt && shown.value.providers == file.value.providers)
      && (file.Err? ==>
            if options.requireAuth then shown == Err(file.error)
            else shown.Ok? && shown.value.port == 10000 && shown.value.host == "127.0.0.1"
                 && shown.value.username == "" && shown.value.sharedKey == 0)
  {
  }

  lemma ManagedGoesFirst(m: Machine, s: Store, managed: Managed, now: int, faults: Faults)
    ensures var own, file := ReadUser(m, s, now, faults).1, ReadFile(m, s, Some(managed), now, faults).1;
      own.Ok? && file.Ok? ==>
        var mine, shown := own.value.providers, file.value.providers;
        && Stores(managed.supportedDomains, mine.supportedDomains, shown.supportedDomains)
        && (managed.provider.Some? ==> shown.provider == managed.provider)
        && (managed.provider.None? ==> shown.provider == mine.provider)
        && (managed.timeoutMs.Some? ==> shown.timeoutMs == managed.timeoutMs)
        && (managed.timeoutMs.None? ==> shown.timeoutMs == mine.timeoutMs)
        && (managed.maxInvocations.Some? ==> shown.maxInvocations == managed.maxInvocations)
        && (managed.maxInvocations.None? ==> shown.maxInvocations == mine.maxInvocations)
        && (managed.disableDemo.Some? ==> shown.disableDemo == managed.disableDemo)
        && (managed.disableDemo.None? ==> shown.disableDemo == mine.disableDemo)
        && (shown.provider.Some? && managed.path.Some? ==>
              shown.path == m.canonical(shown.provider.value, managed.path.value))
        && file.value.port == own.value.port && file.value.host == own.value.host
        && file.value.username == own.value.username
  {
  }

  /** A file of the format before reads with defaults for what it leaves out, and never under a schema check. */
  lemma LegacyIsRead(m: Machine, size: nat, legacy: Legacy, keychain: map<string, string>, now: int, faults: Faults)
    requires size <= MAX_CONFIG_SIZE_BYTES
    ensures var s := Store(Regular(size, Old(legacy)), keychain);
            var (kept, file) := ReadFile(m, s, None, now, faults);
      && kept == s && file.Ok? && file.value.schema == 1
      && Stores(legacy.port, 10000, file.value.port) && Stores(legacy.host, "127.0.0.1", file.value.host)
      && Stores(legacy.username, "", file.value.username) && Stores(legacy.sharedKey, "", file.value.sharedKey)
      && Stores(legacy.createdAt, At(now), file.value.createdAt)
      && (file.value.secretSource == Some(File) <==> file.value.sharedKey != "")
      && file.value.secretSource != Some(Keychain)
      && file.value.providers.provider.None? && file.value.runtimeMode == Auto
  {
  }

  /** What a successful login write leaves: the configuration in the file, the key in its place. */
  lemma LoginIsStored(m: Machine, s: Store, input: Input, now: int, faults: Faults)
    requires Lawful(m)
    requires input.username.Some? && input.username.value != "" && input.sharedKey.Some? && input.refreshCreatedAt
    requires Write(m, s, input, now, faults).1.Ok?
    ensures var (after, config) := Write(m, s, input, now, faults);
      && Stored(m, after, config.value, KeyText(m, input.sharedKey.value))
      && config.value.username == input.username.value && config.value.createdAt == At(now)
      && config.value.port == TargetPort(input, ReadExisting(m, s, now, faults).1)
      && config.value.host == TargetHost(input, ReadExisting(m, s, now, faults).1)
  {
    ExistingIsValidated(m, s, now, faults);
  }

  /** The file holds the configuration, and its secret is in the keychain if there is one, else in it. */
  ghost predicate Stored(m: Machine, s: Store, c: Config, secret: string) {
    && s.file.Regular? && s.file.size <= MAX_CONFIG_SIZE_BYTES && s.file.body == Current(c)
    && c.schema == CONFIG_SCHEMA && ValidPort(c.port) && ValidHost(c.host) && c.username != ""
    && ValidateProvider(m, c) == Ok(c)
    && if m.supportsKeychain
       then c.secretSource == Some(Keychain) && c.sharedKey == ""
            && c.username in s.keychain && s.keychain[c.username] == secret
       else c.secretSource == Some(File) && c.sharedKey == secret
  }

  lemma StoredIsRead(m: Machine, s: Store, c: Config, options: ReadOptions, managed: Option<Managed>, now: int,
                     faults: Faults, secret: string)
    requires Stored(m, s, c, secret) && secret != ""
    requires ReadKey(m, secret).Some? && ReadKey(m, secret).value != 0
    ensures var (kept, runtime) := Read(m, s, options, managed, now, faults);
      if Retrievable(m, c, options, managed, now, faults) then
        && kept == s && runtime.Ok? && runtime.value.sharedKey == ReadKey(m, secret).value
        && runtime.value.username == c.username && runtime.value.port == c.port && runtime.value.host == c.host
      else if options.requireAuth then runtime.Err?
      else runtime.Ok? && runtime.value.sharedKey == 0
  {
    assert ReadUser(m, s, now, faults) == (s, Ok(c));
    var raw := Effective(c, managed);
    var checked := ValidateProvider(m, raw);
    if checked.Ok? {
      SecretIsFound(m, s, c, checked.value, faults, secret);
    }
  }

  lemma SecretIsFound(m: Machine, s: Store, c: Config, raw: Config, faults: Faults, secret: string)
    requires Stored(m, s, c, secret) && secret != ""
    requires raw.username == c.username && raw.secretSource == c.secretSource && raw.sharedKey == c.sharedKey
    ensures StoredSecret(m, s, raw, faults) ==
      if m.supportsKeychain && faults.keychainRead then None else Some(secret)
  {
  }

  /**
   * Signing out: a write that drops the credentials leaves no user and no key in the file, takes
   * the key it pointed to out of the keychain exactly when the keychain lets it go, and leaves
   * other keys alone; no later read finds a key.
   */
  lemma SignOutForgets(m: Machine, s: Store, input: Input, now: int, faults: Faults,
                       options: ReadOptions, managed: Option<Managed>, read: int, later: Faults)
    requires Lawful(m) && input.clearAuth && input.username.None? && input.sharedKey.None?
    requires Write(m, s, input, now, faults).1.Ok?
    ensures var before := ReadFile(m, s, None, now, faults).1;
            var (after, config) := Write(m, s, input, now, faults);
            var found := Read(m, after, options, managed, read, later).1;
      && config.value.username == "" && config.value.sharedKey == "" && config.value.secretSource == Some(File)
      && (before.Ok? && before.value.secretSource == Some(Keychain) ==>
            var user := before.value.username;
            && after.keychain - {user} == s.keychain - {user}
            && (user in after.keychain <==>
                  user in s.keychain && (user == "" || !m.supportsKeychain || faults.keychainDelete)))
      && (before.Ok? && before.value.secretSource != Some(Keychain) ==> after.keychain == s.keychain)
      && (found.Ok? ==> found.value.sharedKey == 0)
      && (options.requireAuth ==> found.Err?)
  {
    SignOutStores(m, s, input, now, faults);
    SignOutKeychain(m, s, input, now, faults);
    var (after, config) := Write(m, s, input, now, faults);
    SignedOutIsRead(m, after, config.value, options, managed, read, later);
    var before := ReadFile(m, s, None, now, faults).1;
    if before.Ok? {
      DeletedExactly(m, s.keychain, before.value.username, faults);
    }
  }

  lemma SignOutKeychain(m: Machine, s: Store, input: Input, now: int, faults: Faults)
    requires Lawful(m) && input.clearAuth && input.username.None? && input.sharedKey.None?
    requires Write(m, s, input, now, faults).1.Ok?
    ensures var before := ReadFile(m, s, None, now, faults).1;
            var after := Write(m, s, input, now, faults).0;
      before.Ok? ==>
        after.keychain == if before.value.secretSource == Some(Keychain)
                          then DeleteKey(m, s.keychain, before.value.username, faults) else s.keychain
  {
    ReadBeforeWrite(m, s, now, faults);
  }

  lemma DeletedExactly(m: Machine, keychain: map<string, string>, user: string, faults: Faults)
    ensures var after := DeleteKey(m, keychain, user, faults);
      && after - {user} == keychain - {user}
      && (user in after <==> user in keychain && (user == "" || !m.supportsKeychain || faults.keychainDelete))
  {
    assert keychain - {user} - {user} == keychain - {user};
  }

  lemma SignOutStores(m: Machine, s: Store, input: Input, now: int, faults: Faults)
    requires Lawful(m) && input.clearAuth && input.username.None? && input.sharedKey.None?
    requires Write(m, s, input, now, faults).1.Ok?
    ensures var (after, config) := Write(m, s, input, now, faults);
      && config.value.username == "" && config.value.sharedKey == "" && config.value.secretSource == Some(File)
      && after.file.Regular? && after.file.body == Current(config.value)
  {
  }

  lemma SignedOutIsRead(m: Machine, s: Store, c: Config, options: ReadOptions, managed: Option<Managed>, now: int,
                        faults: Faults)
    requires s.file.Regular? && s.file.body == Current(c)
    requires c.username == "" && c.sharedKey == "" && c.secretSource == Some(File)
    ensures var found := Read(m, s, options, managed, now, faults).1;
      (found.Ok? ==> found.value.sharedKey == 0) && (options.requireAuth ==> found.Err?)
  {
  }

  /**
   * Clearing after a successful login write forgets the key exactly when the keychain, if it
   * holds the key, lets it go; other users' keys stay; and no authenticated read succeeds any
   * more once the file is gone.
   */
  lemma ClearForgetsLogin(m: Machine, s: Store, input: Input, written: int, faults: Faults, later: Faults,
                          options: ReadOptions, managed: Option<Managed>, read: int, last: Faults)
    requires input.username.Some? && input.username.value != "" && input.sharedKey.Some?
    requires Write(m, s, input, written, faults).1.Ok? && !later.removal && options.requireAuth
    ensures var after, user := Write(m, s, input, written, faults).0, input.username.value;
            var cleared := Clear(m, after, later);
      && cleared.file.Absent?
      && (m.supportsKeychain ==> (user !in cleared.keychain <==> !later.keychainDelete))
      && cleared.keychain - {user} == after.keychain - {user}
      && Read(m, cleared, options, managed, read, last).1.Err?
  {
    var after := Write(m, s, input, written, faults).0;
    assert BodyText(after.file).Current? && BodyText(after.file).config.username == input.username.value;
    assert after.keychain - {input.username.value} - {input.username.value} == after.keychain - {input.username.value};
  }

  // ---------- runs of operations ----------

  datatype Operation =
    | WriteOp(input: Input, now: int, faults: Faults)
    | ReadOp(options: ReadOptions, managed: Option<Managed>, now: int, faults: Faults)
    | ClearOp(faults: Faults)

  function Apply(m: Machine, s: Store, op: Operation): Store {
    match op
    case WriteOp(input, now, faults) => Write(m, s, input, now, faults).0
    case ReadOp(options, managed, now, faults) => Read(m, s, options, managed, now, faults).0
    case ClearOp(faults) => Clear(m, s, faults)
  }

  function ApplyAll(m: Machine, s: Store, ops: seq<Operation>): Store {
    if ops == [] then s else Apply(m, ApplyAll(m, s, ops[..|ops| - 1]), ops[|ops| - 1])
  }

  ghost predicate SoundConfig(c: Config) {
    && c.schema == CONFIG_SCHEMA && ValidPort(c.port) && ValidHost(c.host)
    && (c.secretSource == Some(Keychain) ==> c.sharedKey == "")
    && c.secretSource.Some? && c.providers == NoProviders()
  }

  /** No file, or a well-formed one within the size cap. */
  ghost predicate Sound(m: Machine, s: Store) {
    s.file.Absent? ||
    (s.file.Regular? && s.file.body.Current? && SoundConfig(s.file.body.config)
     && s.file.size == m.size(s.file.body.config) <= MAX_CONFIG_SIZE_BYTES)
  }

  lemma SoundRead(m: Machine, s: Store, now: int, faults: Faults)
    requires Sound(m, s)
    ensures ReadExisting(m, s, now, faults) ==
      (s, if s.file.Absent? then None else Some(s.file.body.config))
    ensures ReadUser(m, s, now, faults).0 == s
  {
  }

  lemma DefaultHostIsValid()
    ensures ValidHost(DEFAULT_HOST)
  {
    assert !IsWhitespace(DEFAULT_HOST[0]);
  }

  lemma WriteKeepsSound(m: Machine, s: Store, input: Input, now: int, faults: Faults)
    requires Sound(m, s)
    ensures Sound(m, Write(m, s, input, now, faults).0)
  {
    DefaultHostIsValid();
    SoundRead(m, s, now, faults);
  }

  lemma ReadKeepsSound(m: Machine, s: Store, options: ReadOptions, managed: Option<Managed>, now: int, faults: Faults)
    requires Sound(m, s)
    ensures Sound(m, Read(m, s, options, managed, now, faults).0)
  {
    SoundRead(m, s, now, faults);
  }

  lemma ApplyKeepsSound(m: Machine, s: Store, op: Operation)
    requires Sound(m, s)
    ensures Sound(m, Apply(m, s, op))
  {
    match op
    case WriteOp(input, now, faults) => WriteKeepsSound(m, s, input, now, faults);
    case ReadOp(options, managed, now, faults) => ReadKeepsSound(m, s, options, managed, now, faults);
    case ClearOp(faults) =>
  }

  /** Starting from no file, every sequence of writes, reads and clears leaves a sound store. */
  lemma {:induction false} EveryRunIsSound(m: Machine, keychain: map<string, string>, ops: seq<Operation>)
    ensures Sound(m, ApplyAll(m, Store(Absent, keychain), ops))
  {
    if ops != [] {
      EveryRunIsSound(m, keychain, ops[..|ops| - 1]);
      ApplyKeepsSound(m, ApplyAll(m, Store(Absent, keychain), ops[..|ops| - 1]), ops[|ops| - 1]);
    }
  }

  // ---------- keys left behind ----------

  /** The user whose key the file says is in the keychain. */
  function OwnerOf(c: Config): Option<string> {
    if c.secretSource == Some(Keychain) && c.username != "" then Some(c.username) else None
  }

  function Owner(s: Store): Option<string> {
    var body := BodyText(s.file);
    if body.Current? then OwnerOf(body.config) else None
  }

  /** Every key that was not there before the store was used belongs to the user the file names. */
  ghost predicate Tidy(base: set<string>, s: Store) {
    forall u :: u in s.keychain && u !in base ==> Owner(s) == Some(u)
  }

  /** There is a key, not there before, of the user the file names. */
  ghost predicate HoldsKey(base: set<string>, s: Store) {
    Owner(s).Some? && Owner(s).value in s.keychain && Owner(s).value !in base
  }

  /** A file that cannot be a configuration, and is cleared away whenever it is opened. */
  predicate Refused(f: FileState) {
    match f
    case Absent => false
    case Directory => true
    case Link(_) => true
    case Regular(size, body) =>
      size > MAX_CONFIG_SIZE_BYTES || body.InvalidJson?
      || (body.Current?
          && (body.config.schema != CONFIG_SCHEMA || !ValidPort(body.config.port) || !ValidHost(body.config.host)))
  }

  function Opened(m: Machine, s: Store, faults: Faults): Store {
    if Refused(s.file) then Clear(m, s, faults) else s
  }

  lemma OpeningExactly(m: Machine, s: Store, now: int, faults: Faults)
    ensures ReadUser(m, s, now, faults).0 == Opened(m, s, faults)
    ensures Refused(s.file) ==> ReadUser(m, s, now, faults).1.Err?
  {
  }

  /** The write gets as far as storing a key for its user. */
  ghost predicate StoresKey(m: Machine, input: Input, existing: Option<Config>, faults: Faults) {
    && input.sharedKey.Some? && TargetUsername(input, existing) != "" && m.supportsKeychain
    && ValidPort(TargetPort(input, existing)) && ValidHost(TargetHost(input, existing))
    && !faults.keychainWrite && KeyText(m, input.sharedKey.value) != ""
  }

  /** The key of the user the file names is still there once the file has been opened. */
  ghost predicate OutlivesOpening(m: Machine, base: set<string>, s: Store, faults: Faults) {
    HoldsKey(base, s) && Owner(s).value in Opened(m, s, faults).keychain
  }

  /**
   * When a write leaves a key behind. It succeeds, names another user or none, and has not
   * dropped the previous user's key, as only a sign-out does that can read the file and reach
   * the keychain. Or it fails, after it has stored a key for a user the file does not name, or
   * after it has cleared a refused file away and not its key.
   */
  ghost predicate WriteStrands(m: Machine, base: set<string>, s: Store, input: Input, now: int, faults: Faults) {
    var existing := ReadExisting(m, s, now, faults).1;
    var target := Target(m, input, existing, now);
    var start := Opened(m, s, faults);
    if faults.directory then false
    else if Write(m, s, input, now, faults).1.Ok? then
      OutlivesOpening(m, base, s, faults) && OwnerOf(target) != Owner(s)
      && !(input.clearAuth && existing.Some? && m.supportsKeychain && !faults.keychainDelete)
    else
      (StoresKey(m, input, existing, faults) && target.username !in base && Owner(start) != Some(target.username))
      || (OutlivesOpening(m, base, s, faults) && Owner(start) != Owner(s))
  }

  /** When a clear does: the file goes, and the key does not. */
  ghost predicate ClearStrands(m: Machine, base: set<string>, s: Store, faults: Faults) {
    HoldsKey(base, s) && !faults.removal && (faults.keychainDelete || !m.supportsKeychain)
  }

  /**
   * When a read clears the store: the file is refused, or the configuration it holds, once it
   * has passed both provider checks, has a bad address, has expired, has a secret that does not
   * decode, or lacks the user or the key that the reader requires.
   */
  ghost predicate ReadClears(m: Machine, s: Store, options: ReadOptions, managed: Option<Managed>, now: int,
                             faults: Faults) {
    var checked := ReadFile(m, s, managed, now, faults).1;
    Refused(s.file) || (checked.Ok? && Unfit(m, s, checked.value, options, now, faults))
  }

  ghost predicate Unfit(m: Machine, s: Store, c: Config, options: ReadOptions, now: int, faults: Faults) {
    var secret := StoredSecret(m, s, c, faults);
    || !ValidPort(c.port) || !ValidHost(c.host)
    || (Stale(c.createdAt, options.maxAgeMs, now) && !options.ignoreExpiry)
    || (secret.Some? && ReadKey(m, secret.value).None?)
    || (options.requireAuth && (c.username == "" || secret.None? || ReadKey(m, secret.value).value == 0))
  }

  lemma ReadClearsExactly(m: Machine, s: Store, options: ReadOptions, managed: Option<Managed>, now: int,
                          faults: Faults)
    ensures Read(m, s, options, managed, now, faults).0
         == if ReadClears(m, s, options, managed, now, faults) then Clear(m, s, faults) else s
  {
    OpeningExactly(m, s, now, faults);
  }

  ghost predicate Strands(m: Machine, base: set<string>, s: Store, op: Operation) {
    match op
    case WriteOp(input, now, faults) => WriteStrands(m, base, s, input, now, faults)
    case ClearOp(faults) => ClearStrands(m, base, s, faults)
    case ReadOp(options, managed, now, faults) =>
      ReadClears(m, s, options, managed, now, faults) && ClearStrands(m, base, s, faults)
  }

  function OwnerSet(c: Config): set<string> {
    if OwnerOf(c).Some? then {OwnerOf(c).value} else {}
  }

  /** What a write that succeeds has done to the keychain, but for the key of the user it names. */
  lemma SuccessLeaves(m: Machine, s: Store, input: Input, now: int, faults: Faults)
    requires Write(m, s, input, now, faults).1.Ok?
    ensures var start, existing, after := Opened(m, s, faults), ReadExisting(m, s, now, faults).1,
                                          Write(m, s, input, now, faults).0;
            var target := Target(m, input, existing, now);
            var cleared := ClearedFirst(m, start.keychain, input, existing, faults);
      && Owner(after) == OwnerOf(target) && !faults.directory
      && (existing.Some? ==> start == s && OwnerOf(existing.value) == Owner(s))
      && after.keychain - OwnerSet(target) == cleared - OwnerSet(target)
  {
    OpeningExactly(m, s, now, faults);
  }

  lemma SuccessStrandsExactly(m: Machine, base: set<string>, s: Store, input: Input, now: int, faults: Faults)
    requires Tidy(base, s) && Write(m, s, input, now, faults).1.Ok?
    ensures Tidy(base, Write(m, s, input, now, faults).0) <==> !WriteStrands(m, base, s, input, now, faults)
  {
    SuccessLeaves(m, s, input, now, faults);
    OpeningKeeps(m, s, faults);
    var existing, after := ReadExisting(m, s, now, faults).1, Write(m, s, input, now, faults).0;
    var target, start := Target(m, input, existing, now), Opened(m, s, faults);
    var cleared := ClearedFirst(m, start.keychain, input, existing, faults);
    forall u | Owner(after) != Some(u) ensures u in after.keychain <==> u in cleared {
      assert u in after.keychain <==> u in after.keychain - OwnerSet(target);
      assert u in cleared <==> u in cleared - OwnerSet(target);
    }
    if OutlivesOpening(m, base, s, faults) {
      var o := Owner(s).value;
      assert o in start.keychain && (Owner(after) != Some(o) ==> (o in after.keychain <==> o in cleared));
    }
  }

  /** What a failed write has done: opened the file, and at most stored or dropped a key. */
  lemma FailureLeaves(m: Machine, s: Store, input: Input, now: int, faults: Faults)
    requires Write(m, s, input, now, faults).1.Err? && !faults.directory
    ensures var start, existing, after := Opened(m, s, faults), ReadExisting(m, s, now, faults).1,
                                          Write(m, s, input, now, faults).0;
            var cleared := ClearedFirst(m, start.keychain, input, existing, faults);
      && after.file == start.file && (existing.Some? ==> start == s)
      && (StoresKey(m, input, existing, faults) ==>
            after.keychain == cleared[TargetUsername(input, existing) := KeyText(m, input.sharedKey.value)])
      && (!StoresKey(m, input, existing, faults) ==> after.keychain.Keys <= start.keychain.Keys)
      && (!StoresKey(m, input, existing, faults) && existing.None? ==> after.keychain == start.keychain)
  {
    OpeningExactly(m, s, now, faults);
  }

  lemma OpeningKeeps(m: Machine, s: Store, faults: Faults)
    ensures Opened(m, s, faults).keychain.Keys <= s.keychain.Keys
    ensures Owner(Opened(m, s, faults)) == Owner(s) || Owner(Opened(m, s, faults)) == None
  {
  }

  lemma FailureStoringExactly(m: Machine, base: set<string>, s: Store, input: Input, now: int, faults: Faults)
    requires Tidy(base, s) && Write(m, s, input, now, faults).1.Err? && !faults.directory
    requires StoresKey(m, input, ReadExisting(m, s, now, faults).1, faults)
    ensures Tidy(base, Write(m, s, input, now, faults).0) <==> !WriteStrands(m, base, s, input, now, faults)
  {
    FailureLeaves(m, s, input, now, faults);
    OpeningKeeps(m, s, faults);
    var existing, after := ReadExisting(m, s, now, faults).1, Write(m, s, input, now, faults).0;
    assert Target(m, input, existing, now).username == TargetUsername(input, existing);
    assert Owner(after) == Owner(Opened(m, s, faults));
  }

  lemma FailureElseExactly(m: Machine, base: set<string>, s: Store, input: Input, now: int, faults: Faults)
    requires Tidy(base, s) && Write(m, s, input, now, faults).1.Err? && !faults.directory
    requires !StoresKey(m, input, ReadExisting(m, s, now, faults).1, faults)
    ensures Tidy(base, Write(m, s, input, now, faults).0) <==> !WriteStrands(m, base, s, input, now, faults)
  {
    FailureLeaves(m, s, input, now, faults);
    OpeningKeeps(m, s, faults);
    assert Owner(Write(m, s, input, now, faults).0) == Owner(Opened(m, s, faults));
  }

  lemma FailureStrandsExactly(m: Machine, base: set<string>, s: Store, input: Input, now: int, faults: Faults)
    requires Tidy(base, s) && Write(m, s, input, now, faults).1.Err?
    ensures Tidy(base, Write(m, s, input, now, faults).0) <==> !WriteStrands(m, base, s, input, now, faults)
  {
    if faults.directory {
    } else if StoresKey(m, input, ReadExisting(m, s, now, faults).1, faults) {
      FailureStoringExactly(m, base, s, input, now, faults);
    } else {
      FailureElseExactly(m, base, s, input, now, faults);
    }
  }

  lemma WriteStrandsExactly(m: Machine, base: set<string>, s: Store, input: Input, now: int, faults: Faults)
    requires Tidy(base, s)
    ensures Tidy(base, Write(m, s, input, now, faults).0) <==> !WriteStrands(m, base, s, input, now, faults)
  {
    if Write(m, s, input, now, faults).1.Ok? {
      SuccessStrandsExactly(m, base, s, input, now, faults);
    } else {
      FailureStrandsExactly(m, base, s, input, now, faults);
    }
  }

  lemma ClearStrandsExactly(m: Machine, base: set<string>, s: Store, faults: Faults)
    requires Tidy(base, s)
    ensures Tidy(base, Clear(m, s, faults)) <==> !ClearStrands(m, base, s, faults)
  {
  }

  /** Whatever the file is: with no key left behind so far, an operation leaves one exactly when it strands one. */
  lemma KeysStrandedExactly(m: Machine, base: set<string>, s: Store, op: Operation)
    requires Tidy(base, s)
    ensures Tidy(base, Apply(m, s, op)) <==> !Strands(m, base, s, op)
  {
    match op
    case WriteOp(input, now, faults) => WriteStrandsExactly(m, base, s, input, now, faults);
    case ClearOp(faults) => ClearStrandsExactly(m, base, s, faults);
    case ReadOp(options, managed, now, faults) =>
      ReadClearsExactly(m, s, options, managed, now, faults);
      ClearStrandsExactly(m, base, s, faults);
  }

  ghost predicate NoneStrands(m: Machine, base: set<string>, s: Store, ops: seq<Operation>) {
    ops != [] ==>
      NoneStrands(m, base, s, ops[..|ops| - 1])
      && !Strands(m, base, ApplyAll(m, s, ops[..|ops| - 1]), ops[|ops| - 1])
  }

  /** A run in which no operation strands a key leaves only the key of the user the file names, from any such store. */
  lemma {:induction false} RunsStayTidy(m: Machine, base: set<string>, s: Store, ops: seq<Operation>)
    requires Tidy(base, s) && NoneStrands(m, base, s, ops)
    ensures Tidy(base, ApplyAll(m, s, ops))
  {
    if ops != [] {
      var before := ops[..|ops| - 1];
      RunsStayTidy(m, base, s, before);
      KeysStrandedExactly(m, base, ApplyAll(m, s, before), ops[|ops| - 1]);
    }
  }

  /** Signing out of a configuration that can no longer be read, because its provider is gone, leaves the key too. */
  lemma UnreadableSignOutStrands(m: Machine, s: Store, input: Input, now: int, faults: Faults)
    requires KeychainSourced(s) && ValidateProvider(m, s.file.body.config).Err?
    requires input.clearAuth && input.allowEmpty && input.username.None? && input.sharedKey.None?
    requires Write(m, s, input, now, faults).1.Ok?
    ensures var (after, config) := Write(m, s, input, now, faults);
      && s.file.body.config.username in after.keychain
      && config.value.username == "" && Owner(after) == None
  {
  }

  /** Signing in as a second user without signing out leaves the first user's key behind. */
  lemma SecondLoginStrands(m: Machine, s: Store, input: Input, now: int, faults: Faults)
    requires Lawful(m) && m.supportsKeychain && KeychainSourced(s)
    requires input.username.Some? && input.username.value != "" && input.sharedKey.Some? && !input.clearAuth
    requires input.username.value != s.file.body.config.username
    requires Write(m, s, input, now, faults).1.Ok?
    ensures var (after, config) := Write(m, s, input, now, faults);
      && config.value.username == input.username.value && input.username.value in after.keychain
      && s.file.body.config.username in after.keychain
  {
  }

  // ---------- metadata-only writes ----------

  ghost predicate MetadataOnly(input: Input) {
    input.username.None? && input.sharedKey.None? && !input.clearAuth && !input.refreshCreatedAt
  }

  /** A file that a read accepts and that holds its secret itself, in the current format or the one before. */
  ghost predicate FileSourced(s: Store) {
    && s.file.Regular? && s.file.size <= MAX_CONFIG_SIZE_BYTES
    && match s.file.body
       case Current(c) =>
         c.schema == CONFIG_SCHEMA && ValidPort(c.port) && ValidHost(c.host) && ResolveSource(c) == File
       case Old(legacy) => OrElse(legacy.sharedKey, "") != ""
       case _ => false
  }

  /** The configuration such a file stands for; an old one without a date is dated when it is read. */
  ghost function Held(s: Store, now: int): Config
    requires FileSourced(s)
  {
    if s.file.body.Current? then s.file.body.config else Normalize(s.file.body.legacy, now)
  }

  ghost predicate Dated(s: Store)
    requires FileSourced(s)
  {
    s.file.body.Old? ==> s.file.body.legacy.createdAt.Some?
  }

  ghost predicate SameSecrets(a: Config, b: Config) {
    a.username == b.username && a.sharedKey == b.sharedKey && a.providers == b.providers
  }

  ghost predicate SameCredentials(a: Config, b: Config) {
    SameSecrets(a, b) && a.createdAt == b.createdAt
  }

  /** No provider, or one whose path is already written the way the path check returns it. */
  predicate ProviderSettled(m: Machine, c: Config) {
    c.providers.provider.None?
    || (c.providers.path.Some? && m.canonical(c.providers.provider.value, c.providers.path.value) == c.providers.path)
  }

  /**
   * A metadata-only write that succeeds keeps user, key, creation time and provider settings
   * exactly when the provider path is settled: otherwise it rewrites the path in canonical
   * form or, if the path no longer validates, starts over from an empty configuration.
   */
  lemma MetadataWriteKeepsExactly(m: Machine, s: Store, input: Input, now: int, faults: Faults)
    requires Lawful(m) && FileSourced(s) && MetadataOnly(input)
    ensures var (after, config) := Write(m, s, input, now, faults);
      && (config.Err? && ValidateProvider(m, Held(s, now)).Ok? ==> after == s)
      && (config.Ok? ==> after.file == Regular(m.size(config.value), Current(config.value)))
      && (config.Ok? ==> (SameCredentials(Held(s, now), config.value) <==> ProviderSettled(m, Held(s, now))))
      && (config.Ok? && ProviderSettled(m, Held(s, now)) ==> FileSourced(after) && ProviderSettled(m, config.value))
  {
    if ProviderSettled(m, Held(s, now)) {
      SettledIsRead(m, s, now, faults);
    }
  }

  lemma SettledIsRead(m: Machine, s: Store, now: int, faults: Faults)
    requires FileSourced(s) && ProviderSettled(m, Held(s, now))
    ensures ReadExisting(m, s, now, faults) == (s, Some(Held(s, now)))
  {
    var c := Held(s, now);
    assert c.providers.provider.Some? ==> c.providers.(path := c.providers.path) == c.providers;
  }

  /** A current-format file that a read accepts, whose key is in the keychain under its user. */
  ghost predicate KeychainSourced(s: Store) {
    && s.file.Regular? && s.file.size <= MAX_CONFIG_SIZE_BYTES && s.file.body.Current?
    && s.file.body.config.schema == CONFIG_SCHEMA
    && ValidPort(s.file.body.config.port) && ValidHost(s.file.body.config.host)
    && s.file.body.config.secretSource == Some(Keychain)
    && s.file.body.config.username != "" && s.file.body.config.username in s.keychain
  }

  /**
   * A keychain-backed configuration is not so safe: a metadata-only write that allows an empty
   * configuration, as the daemon's status changes do, deletes the user's key unless the
   * deletion fails or the provider path no longer validates. In that last case the write
   * starts over, and the key stays behind under a user that the file no longer names.
   */
  lemma KeychainKeyKeptExactly(m: Machine, s: Store, input: Input, now: int, faults: Faults)
    requires Lawful(m) && MetadataOnly(input) && m.supportsKeychain && KeychainSourced(s)
    requires Write(m, s, input, now, faults).1.Ok?
    ensures var c := s.file.body.config;
            var (after, config) := Write(m, s, input, now, faults);
            var unreadable := ValidateProvider(m, c).Err?;
      && (c.username in after.keychain <==> !input.allowEmpty || faults.keychainDelete || unreadable)
      && (c.username in after.keychain ==> after.keychain == s.keychain)
      && after.keychain - {c.username} == s.keychain - {c.username}
      && config.value.username == (if unreadable then "" else c.username)
      && (unreadable ==> input.allowEmpty && config.value.secretSource == Some(File))
  {
    var c := s.file.body.config;
    var validated := ValidateProvider(m, c);
    assert ReadExisting(m, s, now, faults) == (s, if validated.Ok? then Some(validated.value) else None);
  }

  ghost predicate MetadataRun(ops: seq<Operation>) {
    forall i :: 0 <= i < |ops| ==> ops[i].WriteOp? && MetadataOnly(ops[i].input)
  }

  /**
   * Any sequence of metadata-only writes keeps a settled, file-sourced configuration's user,
   * key and provider settings, and its date unless it never had one.
   */
  lemma {:induction false} MetadataRunsKeepCredentials(m: Machine, s: Store, ops: seq<Operation>, now: int)
    requires Lawful(m) && FileSourced(s) && ProviderSettled(m, Held(s, now)) && MetadataRun(ops)
    ensures var t := ApplyAll(m, s, ops);
      && FileSourced(t) && ProviderSettled(m, Held(t, now)) && t.keychain == s.keychain
      && SameSecrets(Held(s, now), Held(t, now))
      && (Dated(s) ==> Dated(t) && SameCredentials(Held(s, now), Held(t, now)))
  {
    if ops != [] {
      var last := |ops| - 1;
      MetadataRunsKeepCredentials(m, s, ops[..last], now);
      MetadataStepKeeps(m, ApplyAll(m, s, ops[..last]), ops[last].input, ops[last].now, ops[last].faults, now);
    }
  }

  lemma MetadataStepKeeps(m: Machine, s: Store, input: Input, at: int, faults: Faults, now: int)
    requires Lawful(m) && FileSourced(s) && MetadataOnly(input) && ProviderSettled(m, Held(s, now))
    ensures var t := Write(m, s, input, at, faults).0;
      && FileSourced(t) && ProviderSettled(m, Held(t, now)) && t.keychain == s.keychain
      && SameSecrets(Held(s, now), Held(t, now))
      && (Dated(s) ==> Dated(t) && SameCredentials(Held(s, now), Held(t, now)))
  {
    assert Held(s, at).providers == Held(s, now).providers;
    MetadataWriteKeepsExactly(m, s, input, at, faults);
    SettledIsRead(m, s, at, faults);
  }
}

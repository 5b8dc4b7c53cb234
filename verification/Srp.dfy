/**
 * The client half of SRP-6a (RFC 5054, sections 2.5.3, 2.5.4 and 2.6) as
 * `legacy/rust-src/srp.rs` runs it, with the handshake steps of `client.rs` around it.
 *
 * The group and the hash are parameters: nothing below depends on the modulus being
 * prime or on what the hash computes, only on its output having 32 bytes.
 */
module Srp {
  import opened ModularArithmetic
  import opened Wrappers
  import opened Bytes
  import PowerMod
  import Bits

  const GROUP_PRIME_BYTES: nat := 384
  const HASH_BYTES: nat := 32
  const SERVER_KEY_EXCHANGE := 1
  const SERVER_VERIFICATION := 3
  const SRP_WITH_RFC_VERIFICATION := 1

  type Hash = h: seq<Byte> -> seq<Byte> | forall m :: |h(m)| == HASH_BYTES
    ghost witness (m: seq<Byte>) => Zeros(HASH_BYTES)

  datatype Group = Group(N: nat, g: Byte)

  datatype Status = InvalidSession | ServerError | ProtoInvalidResponse

  /** The fields of a session, as a value. */
  datatype Session = Session(
    username: seq<Byte>,
    clientPrivateKey: nat,
    serverPublicKey: Option<nat>,
    salt: Option<nat>,
    sharedKey: Option<nat>)

  // ---------- the numbers of the protocol ----------

  ghost function ClientPublic(grp: Group, a: nat): nat
    requires grp.N > 1
  {
    Pow(grp.g, a) % grp.N
  }

  ghost function PadNumeral(n: nat): seq<Byte> {
    Pad(ToBytes(n), GROUP_PRIME_BYTES)
  }

  ghost function ScrambleInput(A: nat, B: nat): seq<Byte> {
    PadNumeral(A) + PadNumeral(B)
  }

  /** `u`, from both public keys. */
  ghost function Scramble(hash: Hash, A: nat, B: nat): nat {
    FromBytes(hash(ScrambleInput(A, B)))
  }

  /** `k`, from the group. */
  ghost function Multiplier(hash: Hash, grp: Group): nat {
    FromBytes(hash(MultiplierInput(grp)))
  }

  ghost function MultiplierInput(grp: Group): seq<Byte> {
    PadNumeral(grp.N) + Pad([grp.g], GROUP_PRIME_BYTES)
  }

  /** `x`, from the salt and the user's name and password. */
  ghost function PasswordExponent(hash: Hash, username: seq<Byte>, password: seq<Byte>, salt: nat): nat {
    FromBytes(hash(PadNumeral(salt) + hash(Credentials(username, password))))
  }

  /** User and password with a colon between them. */
  function Credentials(username: seq<Byte>, password: seq<Byte>): seq<Byte> {
    username + [58] + password
  }

  /** Section 2.6 of RFC 5054, client side, on bare numbers: (B - k g^x)^(a + u x). */
  ghost function ClientSecret(N: nat, k: nat, gx: nat, B: nat, a: nat, u: nat, x: nat): nat
    requires N > 1
  {
    Pow((B - k * gx) % N, a + u * x) % N
  }

  /** Section 2.6 of RFC 5054, server side: (A v^u)^b. */
  ghost function ServerSecret(N: nat, A: nat, v: nat, u: nat, b: nat): nat
    requires N > 1
  {
    Pow(A * Pow(v, u), b) % N
  }

  /** The server's public key: the verifier, masked. */
  ghost function ServerPublic(N: nat, g: nat, k: nat, v: nat, b: nat): nat
    requires N > 1
  {
    (k * v + Pow(g, b)) % N
  }

  ghost function KeyOf(hash: Hash, secret: nat): nat {
    FromBytes(hash(ToBytes(secret)))
  }

  ghost function Proof(hash: Hash, grp: Group, username: seq<Byte>, salt: nat, A: nat, B: nat, K: nat): seq<Byte> {
    hash(ProofInput(XorBytes(hash(PadNumeral(grp.N)), hash(Pad([grp.g], GROUP_PRIME_BYTES))),
                    hash(username), salt, A, B, K, hash(ScrambleInput(A, B))))
  }

  ghost function ProofInput(group: seq<Byte>, user: seq<Byte>, salt: nat, A: nat, B: nat, K: nat,
                            scramble: seq<Byte>): seq<Byte> {
    group + user + PadNumeral(salt) + PadNumeral(A) + PadNumeral(B) + PadNumeral(K) + scramble
  }

  ghost function Hamk(hash: Hash, A: nat, proof: seq<Byte>, K: nat): seq<Byte> {
    hash(HamkInput(A, proof, K))
  }

  ghost function HamkInput(A: nat, proof: seq<Byte>, K: nat): seq<Byte> {
    ToBytes(A) + proof + ToBytes(K)
  }

  function XorByte(a: Byte, b: Byte): Byte {
    assert Pow(2, 8) == 256;
    Bits.XorBound(a, b, 8);
    Bits.Xor(a, b)
  }

  function XorBytes(a: seq<Byte>, b: seq<Byte>): (r: seq<Byte>)
    ensures |r| == if |a| <= |b| then |a| else |b|
  {
    seq(if |a| <= |b| then |a| else |b|, i requires 0 <= i < |a| && i < |b| => XorByte(a[i], b[i]))
  }

  /** Of two digests of one length, either can be had back from their xor and the other. */
  lemma XorBytesUndoes(a: seq<Byte>, b: seq<Byte>)
    requires |a| == |b|
    ensures XorBytes(XorBytes(a, b), b) == a && XorBytes(a, b) == XorBytes(b, a)
  {
    forall i | 0 <= i < |a|
      ensures XorByte(XorByte(a[i], b[i]), b[i]) == a[i] && XorByte(a[i], b[i]) == XorByte(b[i], a[i])
    {
      Bits.XorUndoes(a[i], b[i]);
    }
  }

  // ---------- agreement ----------

  /** The client's base is what the server raised the generator to. */
  lemma BaseIsServerPower(N: nat, g: nat, k: nat, x: nat, v: nat, b: nat)
    requires N > 1 && v % N == Pow(g, x) % N
    ensures (ServerPublic(N, g, k, v, b) - k * (Pow(g, x) % N)) % N == Pow(g, b) % N
  {
    var gx, gb := Pow(g, x) % N, Pow(g, b);
    ModIdempotent(Pow(g, x), N);
    ModIdempotent(k * v + gb, N);
    ModMul(k, gx, k, v, N);
    ModAdd(ServerPublic(N, g, k, v, b), k * gx, k * v + gb, k * v, N);
  }

  lemma ClientSide(N: nat, g: nat, k: nat, u: nat, x: nat, a: nat, b: nat, v: nat)
    requires N > 1 && v % N == Pow(g, x) % N
    ensures ClientSecret(N, k, Pow(g, x) % N, ServerPublic(N, g, k, v, b), a, u, x) == Pow(g, b * (a + u * x)) % N
  {
    BaseIsServerPower(N, g, k, x, v, b);
    var base, e := (ServerPublic(N, g, k, v, b) - k * (Pow(g, x) % N)) % N, a + u * x;
    ModIdempotent(Pow(g, b), N);
    ModPow(base, Pow(g, b), e, N);
    PowOfPow(g, b, e);
  }

  lemma ServerSide(N: nat, g: nat, u: nat, x: nat, a: nat, b: nat, v: nat)
    requires N > 1 && v % N == Pow(g, x) % N
    ensures ServerSecret(N, Pow(g, a) % N, v, u, b) == Pow(g, b * (a + u * x)) % N
  {
    var A, e := Pow(g, a) % N, a + u * x;
    ModIdempotent(Pow(g, a), N);
    ModPow(v, Pow(g, x), u, N);
    PowOfPow(g, x, u);
    ModMul(A, Pow(v, u), Pow(g, a), Pow(g, x * u), N);
    PowAdd(g, a, x * u);
    assert x * u == u * x;
    ModPow(A * Pow(v, u), Pow(g, e), b, N);
    PowOfPow(g, e, b);
    assert e * b == b * e;
  }

  /**
   * The theorem of SRP-6a: for every modulus above one and all exponents, the client
   * computes the server's secret. Primality plays no part.
   */
  lemma Agreement(N: nat, g: nat, k: nat, u: nat, x: nat, a: nat, b: nat, v: nat)
    requires N > 1 && v % N == Pow(g, x) % N
    ensures ClientSecret(N, k, Pow(g, x) % N, ServerPublic(N, g, k, v, b), a, u, x)
         == ServerSecret(N, Pow(g, a) % N, v, u, b)
  {
    ClientSide(N, g, k, u, x, a, b, v);
    ServerSide(N, g, u, x, a, b, v);
  }

  // ---------- transcripts ----------

  /** The bytes hashed for `u` name the two public keys, up to 256^384. */
  lemma ScrambleInputDetermines(A: nat, B: nat, A': nat, B': nat)
    ensures ScrambleInput(A, B) == ScrambleInput(A', B')
            <==> (A % Capacity(GROUP_PRIME_BYTES) == A' % Capacity(GROUP_PRIME_BYTES)
                  && B % Capacity(GROUP_PRIME_BYTES) == B' % Capacity(GROUP_PRIME_BYTES))
  {
    SplitEqual(PadNumeral(A), PadNumeral(B), PadNumeral(A'), PadNumeral(B'));
    PadDetermines(A, A', GROUP_PRIME_BYTES);
    PadDetermines(B, B', GROUP_PRIME_BYTES);
  }

  /** The bytes hashed for the proof name salt, both public keys and the session key. */
  lemma ProofInputDetermines(p: seq<Byte>, i: seq<Byte>, s: nat, A: nat, B: nat, K: nat, t: seq<Byte>,
                             p': seq<Byte>, i': seq<Byte>, s': nat, A': nat, B': nat, K': nat, t': seq<Byte>)
    requires |p| == |p'| && |i| == |i'| && |t| == |t'|
    ensures ProofInput(p, i, s, A, B, K, t) == ProofInput(p', i', s', A', B', K', t')
            <==> (p == p' && i == i' && t == t'
              && s % Capacity(GROUP_PRIME_BYTES) == s' % Capacity(GROUP_PRIME_BYTES)
              && A % Capacity(GROUP_PRIME_BYTES) == A' % Capacity(GROUP_PRIME_BYTES)
              && B % Capacity(GROUP_PRIME_BYTES) == B' % Capacity(GROUP_PRIME_BYTES)
              && K % Capacity(GROUP_PRIME_BYTES) == K' % Capacity(GROUP_PRIME_BYTES))
  {
    var L := GROUP_PRIME_BYTES;
    SplitEqual(p + i + PadNumeral(s) + PadNumeral(A) + PadNumeral(B) + PadNumeral(K), t,
               p' + i' + PadNumeral(s') + PadNumeral(A') + PadNumeral(B') + PadNumeral(K'), t');
    SplitEqual(p + i + PadNumeral(s) + PadNumeral(A) + PadNumeral(B), PadNumeral(K),
               p' + i' + PadNumeral(s') + PadNumeral(A') + PadNumeral(B'), PadNumeral(K'));
    SplitEqual(p + i + PadNumeral(s) + PadNumeral(A), PadNumeral(B),
               p' + i' + PadNumeral(s') + PadNumeral(A'), PadNumeral(B'));
    SplitEqual(p + i + PadNumeral(s), PadNumeral(A), p' + i' + PadNumeral(s'), PadNumeral(A'));
    SplitEqual(p + i, PadNumeral(s), p' + i', PadNumeral(s'));
    SplitEqual(p, i, p', i');
    PadDetermines(s, s', L);
    PadDetermines(A, A', L);
    PadDetermines(B, B', L);
    PadDetermines(K, K', L);
  }

  lemma SplitEqual(a: seq<Byte>, b: seq<Byte>, a': seq<Byte>, b': seq<Byte>)
    requires |a| == |a'| && |b| == |b'|
    ensures a + b == a' + b' <==> a == a' && b == b'
  {
    if a + b == a' + b' {
      assert a == (a + b)[..|a|] && a' == (a' + b')[..|a|];
      assert b == (a + b)[|a|..] && b' == (a' + b')[|a|..];
    }
  }

  // ---------- what the hashes depend on ----------
  // Two values agree under every hash exactly when the named parts agree.

  function Digest(b: Byte): (d: seq<Byte>)
    ensures |d| == HASH_BYTES && d[HASH_BYTES - 1] == b
  {
    Zeros(HASH_BYTES - 1) + [b]
  }

  lemma DigestValue(b: Byte)
    ensures FromBytes(Digest(b)) == b
  {
    LeadingZeros(HASH_BYTES - 1, [b]);
    assert [b][..0] == [];
  }

  /** A hash that marks one input. */
  ghost function Marking(input: seq<Byte>): Hash {
    (m: seq<Byte>) => if m == input then Digest(1) else Digest(0)
  }

  lemma MarkingSeparates(a: seq<Byte>, b: seq<Byte>)
    ensures Marking(a)(a) == Marking(a)(b) <==> a == b
    ensures FromBytes(Marking(a)(a)) == FromBytes(Marking(a)(b)) <==> a == b
  {
    DigestValue(0);
    DigestValue(1);
  }

  /** Where the two keys stand in what is hashed for `u`. */
  lemma ScrambleFields(A: nat, B: nat)
    ensures var m := ScrambleInput(A, B);
      && |m| == 2 * GROUP_PRIME_BYTES
      && FromBytes(m[..GROUP_PRIME_BYTES]) == A % Capacity(GROUP_PRIME_BYTES)
      && FromBytes(m[GROUP_PRIME_BYTES..]) == B % Capacity(GROUP_PRIME_BYTES)
  {
    var m := ScrambleInput(A, B);
    assert m[..GROUP_PRIME_BYTES] == PadNumeral(A) && m[GROUP_PRIME_BYTES..] == PadNumeral(B);
    PadNumber(A, GROUP_PRIME_BYTES);
    PadNumber(B, GROUP_PRIME_BYTES);
  }

  lemma ScrambleSeparates(A: nat, B: nat, A': nat, B': nat)
    ensures (forall hash: Hash :: Scramble(hash, A, B) == Scramble(hash, A', B'))
            <==> (A % Capacity(GROUP_PRIME_BYTES) == A' % Capacity(GROUP_PRIME_BYTES)
                  && B % Capacity(GROUP_PRIME_BYTES) == B' % Capacity(GROUP_PRIME_BYTES))
  {
    ScrambleInputDetermines(A, B, A', B');
    var marking := Marking(ScrambleInput(A, B));
    MarkingSeparates(ScrambleInput(A, B), ScrambleInput(A', B'));
    assert Scramble(marking, A, B) == Scramble(marking, A', B') ==> ScrambleInput(A, B) == ScrambleInput(A', B');
  }

  lemma MultiplierInputDetermines(grp: Group, grp': Group)
    ensures MultiplierInput(grp) == MultiplierInput(grp')
            <==> (grp.N % Capacity(GROUP_PRIME_BYTES) == grp'.N % Capacity(GROUP_PRIME_BYTES) && grp.g == grp'.g)
  {
    var g, g' := Pad([grp.g], GROUP_PRIME_BYTES), Pad([grp'.g], GROUP_PRIME_BYTES);
    SplitEqual(PadNumeral(grp.N), g, PadNumeral(grp'.N), g');
    PadDetermines(grp.N, grp'.N, GROUP_PRIME_BYTES);
    assert g[GROUP_PRIME_BYTES - 1] == grp.g && g'[GROUP_PRIME_BYTES - 1] == grp'.g;
  }

  lemma MultiplierSeparates(grp: Group, grp': Group)
    ensures (forall hash: Hash :: Multiplier(hash, grp) == Multiplier(hash, grp'))
            <==> (grp.N % Capacity(GROUP_PRIME_BYTES) == grp'.N % Capacity(GROUP_PRIME_BYTES) && grp.g == grp'.g)
  {
    MultiplierInputDetermines(grp, grp');
    MarkingSeparates(MultiplierInput(grp), MultiplierInput(grp'));
    var marking := Marking(MultiplierInput(grp));
    assert Multiplier(marking, grp) == Multiplier(marking, grp') ==> MultiplierInput(grp) == MultiplierInput(grp');
  }

  /** The colon separates user and password as long as no user has one in its name. */
  lemma CredentialsDetermine(u: seq<Byte>, p: seq<Byte>, u': seq<Byte>, p': seq<Byte>)
    requires 58 !in u && 58 !in u'
    ensures Credentials(u, p) == Credentials(u', p') <==> u == u' && p == p'
  {
    var c, c' := Credentials(u, p), Credentials(u', p');
    FirstColon(u, p);
    FirstColon(u', p');
    if c == c' && |u| == |u'| {
      assert u == c[..|u|] && p == c[|u| + 1..] && u' == c'[..|u'|] && p' == c'[|u'| + 1..];
    }
  }

  lemma FirstColon(u: seq<Byte>, p: seq<Byte>)
    requires 58 !in u
    ensures forall i :: 0 <= i < |Credentials(u, p)| && Credentials(u, p)[i] == 58 ==> |u| <= i
    ensures Credentials(u, p)[|u|] == 58
  {
  }

  /** Otherwise it does not. */
  lemma ColonsConfuse(u: seq<Byte>, v: seq<Byte>, p: seq<Byte>)
    ensures Credentials(u, v + [58] + p) == Credentials(u + [58] + v, p)
  {
    assert u + [58] + (v + [58] + p) == u + [58] + v + [58] + p;
  }

  /** A hash that marks everything of the salted length with this padded salt in front. */
  ghost function MarkingSalt(pad: seq<Byte>): Hash {
    (m: seq<Byte>) => if |m| == |pad| + HASH_BYTES && m[..|pad|] == pad then Digest(1) else Digest(0)
  }

  /** A hash that gives one credential a digest of its own, and the salted digest another. */
  ghost function MarkingTwice(inner: seq<Byte>, outer: seq<Byte>): Hash {
    (m: seq<Byte>) => if m == inner then Digest(1) else if m == outer then Digest(2) else Digest(0)
  }

  lemma SaltSeparates(u: seq<Byte>, p: seq<Byte>, s: nat, u': seq<Byte>, p': seq<Byte>, s': nat)
    requires PadNumeral(s) != PadNumeral(s')
    ensures var hash := MarkingSalt(PadNumeral(s));
      PasswordExponent(hash, u, p, s) != PasswordExponent(hash, u', p', s')
  {
    var hash := MarkingSalt(PadNumeral(s));
    Salted(PadNumeral(s), PadNumeral(s), hash(Credentials(u, p)));
    Salted(PadNumeral(s), PadNumeral(s'), hash(Credentials(u', p')));
    ExponentIs(hash, u, p, s, PadNumeral(s) + hash(Credentials(u, p)));
    ExponentIs(hash, u', p', s', PadNumeral(s') + hash(Credentials(u', p')));
  }

  lemma Salted(pad: seq<Byte>, other: seq<Byte>, digest: seq<Byte>)
    requires |other| == |pad| && |digest| == HASH_BYTES
    ensures FromBytes(MarkingSalt(pad)(other + digest)) == if other == pad then 1 else 0
  {
    assert (other + digest)[..|pad|] == other;
    DigestValue(0);
    DigestValue(1);
  }

  lemma SecretsSeparate(hash: Hash, outer: seq<Byte>, u: seq<Byte>, p: seq<Byte>, s: nat,
                        u': seq<Byte>, p': seq<Byte>, s': nat)
    requires Credentials(u, p) != Credentials(u', p')
    requires hash == MarkingTwice(Credentials(u, p), outer) && outer == PadNumeral(s) + Digest(1)
    ensures PasswordExponent(hash, u, p, s) != PasswordExponent(hash, u', p', s')
  {
    var inner, pad, pad' := Credentials(u, p), PadNumeral(s), PadNumeral(s');
    Twice(inner, outer, inner, pad, pad);
    Twice(inner, outer, Credentials(u', p'), pad, pad');
    var other := pad' + hash(Credentials(u', p'));
    MarkedTwice(inner, outer, other);
    ExponentIs(hash, u, p, s, outer);
    ExponentIs(hash, u', p', s', other);
  }

  lemma ExponentIs(hash: Hash, u: seq<Byte>, p: seq<Byte>, s: nat, m: seq<Byte>)
    requires m == PadNumeral(s) + hash(Credentials(u, p))
    ensures PasswordExponent(hash, u, p, s) == FromBytes(hash(m))
  {
  }

  /** After a mark of its own a text is hashed to the outer digest; after another, to no digest of that kind. */
  lemma Twice(inner: seq<Byte>, outer: seq<Byte>, text: seq<Byte>, pad: seq<Byte>, pad': seq<Byte>)
    requires outer == pad + Digest(1) && |pad| == |pad'|
    ensures text != inner ==> pad' + MarkingTwice(inner, outer)(text) != outer
    ensures text == inner ==> pad + MarkingTwice(inner, outer)(text) == outer
  {
    var digest := MarkingTwice(inner, outer)(text);
    assert (pad' + digest)[|pad|..] == digest && outer[|pad|..] == Digest(1);
  }

  lemma MarkedTwice(inner: seq<Byte>, outer: seq<Byte>, other: seq<Byte>)
    requires other != outer
    ensures FromBytes(MarkingTwice(inner, outer)(outer)) != FromBytes(MarkingTwice(inner, outer)(other))
  {
    DigestValue(0);
    DigestValue(1);
    DigestValue(2);
  }

  /** The exponent depends on the salt, modulo 256^384, and on user and password as they are joined. */
  lemma PasswordExponentSeparates(u: seq<Byte>, p: seq<Byte>, s: nat, u': seq<Byte>, p': seq<Byte>, s': nat)
    ensures (forall hash: Hash :: PasswordExponent(hash, u, p, s) == PasswordExponent(hash, u', p', s'))
            <==> (Credentials(u, p) == Credentials(u', p')
                  && s % Capacity(GROUP_PRIME_BYTES) == s' % Capacity(GROUP_PRIME_BYTES))
  {
    PadDetermines(s, s', GROUP_PRIME_BYTES);
    if PadNumeral(s) != PadNumeral(s') {
      SaltSeparates(u, p, s, u', p', s');
    } else if Credentials(u, p) != Credentials(u', p') {
      var outer := PadNumeral(s) + Digest(1);
      SecretsSeparate(MarkingTwice(Credentials(u, p), outer), outer, u, p, s, u', p', s');
    }
  }

  /** The numbers in the middle of a proof's input. */
  ghost function Numerals(s: nat, A: nat, B: nat, K: nat): seq<Byte> {
    PadNumeral(s) + PadNumeral(A) + PadNumeral(B) + PadNumeral(K)
  }

  ghost function MarkingNumerals(numerals: seq<Byte>): Hash {
    (m: seq<Byte>) =>
      if |m| == 2 * HASH_BYTES + |numerals| + HASH_BYTES && m[2 * HASH_BYTES..2 * HASH_BYTES + |numerals|] == numerals
      then Digest(1) else Digest(0)
  }

  lemma NumeralsInProof(p: seq<Byte>, i: seq<Byte>, s: nat, A: nat, B: nat, K: nat, t: seq<Byte>)
    requires |p| == |i| == |t| == HASH_BYTES
    ensures var m, n := ProofInput(p, i, s, A, B, K, t), Numerals(s, A, B, K);
      |m| == 3 * HASH_BYTES + |n| && m[2 * HASH_BYTES..2 * HASH_BYTES + |n|] == n
  {
    assert ProofInput(p, i, s, A, B, K, t) == p + i + Numerals(s, A, B, K) + t;
  }

  lemma NumeralFields(s: nat, A: nat, B: nat, K: nat)
    ensures var m, L := Numerals(s, A, B, K), GROUP_PRIME_BYTES;
      && |m| == 4 * L
      && FromBytes(m[..L]) == s % Capacity(L) && FromBytes(m[L..2 * L]) == A % Capacity(L)
      && FromBytes(m[2 * L..3 * L]) == B % Capacity(L) && FromBytes(m[3 * L..]) == K % Capacity(L)
  {
    var m, L := Numerals(s, A, B, K), GROUP_PRIME_BYTES;
    assert m[..L] == PadNumeral(s) && m[L..2 * L] == PadNumeral(A);
    assert m[2 * L..3 * L] == PadNumeral(B) && m[3 * L..] == PadNumeral(K);
    PadNumber(s, L);
    PadNumber(A, L);
    PadNumber(B, L);
    PadNumber(K, L);
  }

  /** For one user and group, the client's proof depends on salt, both public keys and the session key. */
  lemma ProofSeparates(grp: Group, user: seq<Byte>, s: nat, A: nat, B: nat, K: nat, s': nat, A': nat, B': nat, K': nat)
    ensures (forall hash: Hash :: Proof(hash, grp, user, s, A, B, K) == Proof(hash, grp, user, s', A', B', K'))
            <==> (s % Capacity(GROUP_PRIME_BYTES) == s' % Capacity(GROUP_PRIME_BYTES)
                  && A % Capacity(GROUP_PRIME_BYTES) == A' % Capacity(GROUP_PRIME_BYTES)
                  && B % Capacity(GROUP_PRIME_BYTES) == B' % Capacity(GROUP_PRIME_BYTES)
                  && K % Capacity(GROUP_PRIME_BYTES) == K' % Capacity(GROUP_PRIME_BYTES))
  {
    NumeralsDetermine(s, A, B, K, s', A', B', K');
    var n, n' := Numerals(s, A, B, K), Numerals(s', A', B', K');
    if n != n' {
      var hash := MarkingNumerals(n);
      ProofMarked(hash, grp, user, s, A, B, K, n);
      ProofMarked(hash, grp, user, s', A', B', K', n);
    } else {
      SamePads(s, A, B, K, s', A', B', K');
    }
  }

  lemma ProofMarked(hash: Hash, grp: Group, user: seq<Byte>, s: nat, A: nat, B: nat, K: nat, n: seq<Byte>)
    requires hash == MarkingNumerals(n) && |n| == 4 * GROUP_PRIME_BYTES
    ensures Proof(hash, grp, user, s, A, B, K) == if Numerals(s, A, B, K) == n then Digest(1) else Digest(0)
  {
    NumeralsInProof(XorBytes(hash(PadNumeral(grp.N)), hash(Pad([grp.g], GROUP_PRIME_BYTES))), hash(user), s, A, B, K,
                    hash(ScrambleInput(A, B)));
  }

  lemma NumeralsDetermine(s: nat, A: nat, B: nat, K: nat, s': nat, A': nat, B': nat, K': nat)
    ensures Numerals(s, A, B, K) == Numerals(s', A', B', K')
            <==> (s % Capacity(GROUP_PRIME_BYTES) == s' % Capacity(GROUP_PRIME_BYTES)
                  && A % Capacity(GROUP_PRIME_BYTES) == A' % Capacity(GROUP_PRIME_BYTES)
                  && B % Capacity(GROUP_PRIME_BYTES) == B' % Capacity(GROUP_PRIME_BYTES)
                  && K % Capacity(GROUP_PRIME_BYTES) == K' % Capacity(GROUP_PRIME_BYTES))
  {
    SamePads(s, A, B, K, s', A', B', K');
    PadDetermines(s, s', GROUP_PRIME_BYTES);
    PadDetermines(A, A', GROUP_PRIME_BYTES);
    PadDetermines(B, B', GROUP_PRIME_BYTES);
    PadDetermines(K, K', GROUP_PRIME_BYTES);
  }

  lemma SamePads(s: nat, A: nat, B: nat, K: nat, s': nat, A': nat, B': nat, K': nat)
    ensures Numerals(s, A, B, K) == Numerals(s', A', B', K')
            <==> (PadNumeral(s) == PadNumeral(s') && PadNumeral(A) == PadNumeral(A')
                  && PadNumeral(B) == PadNumeral(B') && PadNumeral(K) == PadNumeral(K'))
  {
    SplitEqual(PadNumeral(s) + PadNumeral(A) + PadNumeral(B), PadNumeral(K),
               PadNumeral(s') + PadNumeral(A') + PadNumeral(B'), PadNumeral(K'));
    SplitEqual(PadNumeral(s) + PadNumeral(A), PadNumeral(B), PadNumeral(s') + PadNumeral(A'), PadNumeral(B'));
    SplitEqual(PadNumeral(s), PadNumeral(A), PadNumeral(s'), PadNumeral(A'));
  }

  /** The server's proof depends on an input without padding, which tells public keys of one length apart. */
  lemma HamkSeparates(A: nat, m: seq<Byte>, K: nat, A': nat, m': seq<Byte>, K': nat)
    ensures (forall hash: Hash :: Hamk(hash, A, m, K) == Hamk(hash, A', m', K'))
            <==> HamkInput(A, m, K) == HamkInput(A', m', K')
  {
    MarkingSeparates(HamkInput(A, m, K), HamkInput(A', m', K'));
    var marking := Marking(HamkInput(A, m, K));
    assert Hamk(marking, A, m, K) == Hamk(marking, A', m', K') ==> HamkInput(A, m, K) == HamkInput(A', m', K');
  }

  lemma HamkInputDetermines(A: nat, m: seq<Byte>, K: nat, A': nat, m': seq<Byte>, K': nat)
    requires |ToBytes(A)| == |ToBytes(A')| && |m| == |m'|
    ensures HamkInput(A, m, K) == HamkInput(A', m', K') <==> A == A' && m == m' && K == K'
  {
    if HamkInput(A, m, K) == HamkInput(A', m', K') {
      Prefixes(ToBytes(A), m, ToBytes(K), ToBytes(A'), m', ToBytes(K'));
      NumberRoundTrip(A);
      NumberRoundTrip(A');
      NumberRoundTrip(K);
      NumberRoundTrip(K');
    }
  }

  lemma Prefixes(a: seq<Byte>, m: seq<Byte>, k: seq<Byte>, a': seq<Byte>, m': seq<Byte>, k': seq<Byte>)
    requires |a| == |a'| && |m| == |m'| && a + m + k == a' + m' + k'
    ensures a == a' && m == m' && k == k'
  {
    SplitEqual(a + m, k, a' + m', k');
    SplitEqual(a, m, a', m');
  }

  /** Keys of different lengths can shift the parts: two proofs of one length over the same input. */
  lemma HamkPartsShift(d: seq<Byte>, x: Byte, y: Byte)
    requires x > 0
    ensures HamkInput(1, [2] + d, 256 * x + y) == HamkInput(258, d + [x], y)
  {
    assert ToBytes(258) == ToBytes(1) + [2] && ToBytes(256 * x + y) == ToBytes(x) + [y];
    assert [1] + ([2] + d) + [x, y] == [1, 2] + (d + [x]) + [y];
  }

  /** The key is the hash of the secret's shortest big-endian bytes. */
  ghost predicate IsSessionKey(hash: Hash, secret: nat, key: nat) {
    exists m :: Shortest(m) && FromBytes(m) == secret && key == FromBytes(hash(m))
  }

  lemma KeyOfIsSessionKey(hash: Hash, secret: nat, key: nat)
    ensures IsSessionKey(hash, secret, key) <==> key == KeyOf(hash, secret)
  {
    ToBytesIsShortest(secret);
    NumberRoundTrip(secret);
    forall m | Shortest(m) && FromBytes(m) == secret ensures m == ToBytes(secret) {
      ShortestIsToBytes(m);
    }
    assert FromBytes(ToBytes(secret)) == secret;
  }

  /** A session key under every hash for two secrets: exactly when they are one. */
  lemma SessionKeysSeparate(p: nat, q: nat)
    ensures (forall hash: Hash, key :: IsSessionKey(hash, p, key) <==> IsSessionKey(hash, q, key)) <==> p == q
  {
    if p != q {
      var hash := Marking(ToBytes(p));
      NumberRoundTrip(p);
      NumberRoundTrip(q);
      MarkingSeparates(ToBytes(p), ToBytes(q));
      KeyOfIsSessionKey(hash, p, KeyOf(hash, p));
      KeyOfIsSessionKey(hash, q, KeyOf(hash, p));
    }
  }

  // ---------- the subtraction on naturals ----------

  /**
   * B - k g^x without going below zero: reduce the product first, then add the modulus
   * when the server key is the smaller one. Neither subtraction underflows.
   */
  method TwoBranchSubtract(serverPublicKey: nat, product: nat, modulus: nat) returns (base: nat)
    requires modulus > 0
    ensures base == (serverPublicKey - product) % modulus
  {
    var rhs := PowerMod.RustMod(product, modulus);
    PowerMod.RustModIsRemainder(product, modulus);
    ModIdempotent(product, modulus);
    ModAdd(serverPublicKey, rhs, serverPublicKey, product, modulus);
    if serverPublicKey >= rhs {
      base := PowerMod.RustMod(serverPublicKey - rhs, modulus);
      PowerMod.RustModIsRemainder(serverPublicKey - rhs, modulus);
    } else {
      var wrapped := serverPublicKey + modulus;
      base := PowerMod.RustMod(wrapped - rhs, modulus);
      PowerMod.RustModIsRemainder(wrapped - rhs, modulus);
      AddMultiple(serverPublicKey - rhs, 1, modulus);
    }
  }

  /** The Rust client: two-branch subtraction, a refusal of the zero base, then the power. */
  method RustSharedSecret(grp: Group, k: nat, u: nat, x: nat, B: nat, a: nat) returns (r: Result<nat, Status>)
    requires grp.N > 1
    ensures r == GuardedSecret(grp, k, u, x, B, a)
  {
    var gx := PowerMod.RustPowermod(grp.g, x, grp.N);
    var base := TwoBranchSubtract(B, k * gx, grp.N);
    if base == 0 {
      return Err(ServerError);
    }
    var secret := PowerMod.RustPowermod(base, a + u * x, grp.N);
    r := Ok(secret);
  }

  ghost function GuardedSecret(grp: Group, k: nat, u: nat, x: nat, B: nat, a: nat): Result<nat, Status>
    requires grp.N > 1
  {
    var gx := Pow(grp.g, x) % grp.N;
    if (B - k * gx) % grp.N == 0 then Err(ServerError)
    else Ok(ClientSecret(grp.N, k, gx, B, a, u, x))
  }

  /** The Deno client hands the difference, of either sign, to its exponentiation. */
  method DenoSharedSecret(N: nat, k: nat, gx: nat, B: nat, a: nat, u: nat, x: nat)
    returns (secret: Result<nat, PowerMod.ArithmeticError>)
    requires N > 1
    ensures secret == Ok(ClientSecret(N, k, gx, B, a, u, x))
  {
    secret := PowerMod.DenoPowermod(B - k * gx, a + u * x, N);
    ModIdempotent(B - k * gx, N);
    ModPow(B - k * gx, (B - k * gx) % N, a + u * x, N);
  }

  // ---------- the session ----------

  class SrpSession {
    const grp: Group
    const hash: Hash
    var username: seq<Byte>
    var clientPrivateKey: nat
    var serverPublicKey: Option<nat>
    var salt: Option<nat>
    var sharedKey: Option<nat>

    ghost function View(): Session
      reads this
    {
      Session(username, clientPrivateKey, serverPublicKey, salt, sharedKey)
    }

    constructor (grp: Group, hash: Hash, username: seq<Byte>, clientPrivateKey: nat)
      ensures this.grp == grp && this.hash == hash
      ensures View() == Session(username, clientPrivateKey, None, None, None)
    {
      this.grp, this.hash := grp, hash;
      this.username, this.clientPrivateKey := username, clientPrivateKey;
      serverPublicKey, salt, sharedKey := None, None, None;
    }

    /** `update_with_values` as a client uses it that resumes: user and key, the rest untouched. */
    method Restore(username: seq<Byte>, sharedKey: nat)
      modifies this
      ensures View() == old(View()).(username := username, sharedKey := Some(sharedKey))
    {
      this.username := username;
      this.sharedKey := Some(sharedKey);
    }

    method ClientPublicKey() returns (A: nat)
      requires grp.N > 1
      ensures A == ClientPublic(grp, clientPrivateKey)
    {
      A := PowerMod.RustPowermod(grp.g, clientPrivateKey, grp.N);
    }

    method DeriveScramble() returns (digest: seq<Byte>)
      requires grp.N > 1 && serverPublicKey.Some?
      ensures digest == hash(ScrambleInput(ClientPublic(grp, clientPrivateKey), serverPublicKey.value))
    {
      var A := ClientPublicKey();
      var left := PadBuffer(ToBytes(A), GROUP_PRIME_BYTES);
      var right := PadBuffer(ToBytes(serverPublicKey.value), GROUP_PRIME_BYTES);
      digest := hash(left[..] + right[..]);
    }

    /** Accepts a server key exactly when it is not a multiple of the modulus. */
    method SetServerPublicKey(B: nat, newSalt: nat) returns (r: Result<(), Status>)
      requires grp.N > 1
      modifies this
      ensures r == if B % grp.N == 0 then Err(InvalidSession) else Ok(())
      ensures View() == if r.Ok? then old(View()).(serverPublicKey := Some(B), salt := Some(newSalt)) else old(View())
    {
      PowerMod.RustModIsRemainder(B, grp.N);
      if PowerMod.RustMod(B, grp.N) == 0 {
        return Err(InvalidSession);
      }
      serverPublicKey := Some(B);
      salt := Some(newSalt);
      r := Ok(());
    }

    method DeriveSessionKey(password: seq<Byte>) returns (r: Result<nat, Status>)
      requires grp.N > 1
      ensures r == DerivedKey(grp, hash, View(), password)
      ensures var secret := SharedSecret(grp, hash, View(), password);
        && (r.Ok? <==> secret.Ok?)
        && (r.Ok? ==> exists m :: Shortest(m) && FromBytes(m) == secret.value && r.value == FromBytes(hash(m)))
    {
      if serverPublicKey.None? || salt.None? {
        return Err(InvalidSession);
      }
      var x := DerivePasswordExponent(password);
      var scramble := DeriveScramble();
      var u := FromBytes(scramble);
      var k := DeriveMultiplier();
      var secret := RustSharedSecret(grp, k, u, x, serverPublicKey.value, clientPrivateKey);
      if secret.Err? {
        return Err(secret.error);
      }
      r := Ok(FromBytes(hash(ToBytes(secret.value))));
      KeyOfIsSessionKey(hash, secret.value, r.value);
    }

    method DerivePasswordExponent(password: seq<Byte>) returns (x: nat)
      requires salt.Some?
      ensures x == PasswordExponent(hash, username, password, salt.value)
    {
      var paddedSalt := PadBuffer(ToBytes(salt.value), GROUP_PRIME_BYTES);
      x := FromBytes(hash(paddedSalt[..] + hash(username + [58] + password)));
    }

    method DeriveMultiplier() returns (k: nat)
      ensures k == Multiplier(hash, grp)
    {
      var paddedPrime := PadBuffer(ToBytes(grp.N), GROUP_PRIME_BYTES);
      var paddedGenerator := PadBuffer([grp.g], GROUP_PRIME_BYTES);
      k := FromBytes(hash(paddedPrime[..] + paddedGenerator[..]));
    }

    method SetSharedKey(password: seq<Byte>) returns (r: Result<nat, Status>)
      requires grp.N > 1
      modifies this
      ensures r == DerivedKey(grp, hash, old(View()), password)
      ensures View() == if r.Ok? then old(View()).(sharedKey := Some(r.value)) else old(View())
    {
      if serverPublicKey.None? || salt.None? {
        return Err(InvalidSession);
      }
      r := DeriveSessionKey(password);
      if r.Ok? {
        sharedKey := Some(r.value);
      }
    }

    method ComputeM() returns (r: Result<seq<Byte>, Status>)
      requires grp.N > 1
      ensures r.Ok? <==> salt.Some? && serverPublicKey.Some? && sharedKey.Some?
      ensures r.Ok? ==> r.value == Proof(hash, grp, username, salt.value, ClientPublic(grp, clientPrivateKey),
                                         serverPublicKey.value, sharedKey.value)
      ensures r.Err? ==> r.error == InvalidSession
    {
      if salt.None? || serverPublicKey.None? || sharedKey.None? {
        return Err(InvalidSession);
      }
      var paddedPrime := PadBuffer(ToBytes(grp.N), GROUP_PRIME_BYTES);
      var paddedGenerator := PadBuffer([grp.g], GROUP_PRIME_BYTES);
      var xored := XorBytes(hash(paddedPrime[..]), hash(paddedGenerator[..]));
      var scramble := DeriveScramble();
      var s := PadBuffer(ToBytes(salt.value), GROUP_PRIME_BYTES);
      var A := ClientPublicKey();
      var paddedA := PadBuffer(ToBytes(A), GROUP_PRIME_BYTES);
      var paddedB := PadBuffer(ToBytes(serverPublicKey.value), GROUP_PRIME_BYTES);
      var paddedK := PadBuffer(ToBytes(sharedKey.value), GROUP_PRIME_BYTES);
      r := Ok(hash(xored + hash(username) + s[..] + paddedA[..] + paddedB[..] + paddedK[..] + scramble));
    }

    method ComputeHmac(proof: seq<Byte>) returns (r: Result<seq<Byte>, Status>)
      requires grp.N > 1
      ensures r == if sharedKey.None? then Err(InvalidSession)
                   else Ok(Hamk(hash, ClientPublic(grp, clientPrivateKey), proof, sharedKey.value))
    {
      if sharedKey.None? {
        return Err(InvalidSession);
      }
      var payload := ClientPublicKey();
      r := Ok(hash(ToBytes(payload) + proof + ToBytes(sharedKey.value)));
    }

    method VerifyHamk(expected: seq<Byte>, actual: seq<Byte>) returns (ok: bool)
      ensures ok <==> expected == actual != []
    {
      if |expected| == 0 || |actual| == 0 || |expected| != |actual| {
        return false;
      }
      ok := VerifyConstantTime(expected, actual);
    }

    /** The steps of `request_challenge` after the reply has been decoded. */
    method AcceptChallenge(recent: bool, reply: Result<PakeMessage, Status>) returns (r: Result<(), Status>)
      requires grp.N > 1
      modifies this
      ensures recent && old(sharedKey).Some? ==> r.Ok? && View() == old(View())
      ensures !(recent && old(sharedKey).Some?) ==>
        (r.Ok? <==> reply.Ok? && Acceptable(reply.value, old(username), grp.N))
      ensures r.Ok? && !(recent && old(sharedKey).Some?) ==>
        View() == old(View()).(serverPublicKey := Some(reply.value.B), salt := Some(reply.value.salt))
      ensures r.Err? ==> View() == old(View())
      ensures r.Err? ==>
        r.error == if reply.Err? then reply.error
                   else if reply.value.kind == SERVER_KEY_EXCHANGE && reply.value.proto == SRP_WITH_RFC_VERIFICATION
                           && reply.value.errCode == 0
                        then InvalidSession
                        else ServerError
    {
      if recent && sharedKey.Some? {
        return Ok(());
      }
      if reply.Err? {
        return Err(reply.error);
      }
      var message := reply.value;
      if message.kind != SERVER_KEY_EXCHANGE || message.proto != SRP_WITH_RFC_VERIFICATION || message.errCode != 0 {
        return Err(ServerError);
      }
      if message.tid != username {
        return Err(InvalidSession);
      }
      r := SetServerPublicKey(message.B, message.salt);
    }

    /** The checks on the server's verification message; what passes them carries a proof. */
    method CheckVerification(message: PakeMessage) returns (r: Result<seq<Byte>, Status>)
      ensures r.Ok? <==> && message.kind == SERVER_VERIFICATION && message.tid == username
                         && message.errCode == 0 && message.hamk.Some?
      ensures r.Ok? ==> message.hamk == Some(r.value)
      ensures r.Err? ==>
        r.error == if message.kind == SERVER_VERIFICATION && (message.tid != username || message.errCode == 1)
                   then InvalidSession
                   else ServerError
    {
      if message.kind != SERVER_VERIFICATION {
        return Err(ServerError);
      }
      if message.tid != username {
        return Err(InvalidSession);
      }
      if message.errCode == 1 {
        return Err(InvalidSession);
      }
      if message.errCode != 0 || message.hamk.None? {
        return Err(ServerError);
      }
      r := Ok(message.hamk.value);
    }

    /** The second half of `verify_challenge`: send the proof, check what the server proves back. */
    method ExchangeProofs(server: seq<Byte> -> Result<PakeMessage, Status>) returns (r: Result<(), Status>)
      requires grp.N > 1 && salt.Some? && serverPublicKey.Some? && sharedKey.Some?
      ensures r.Ok? <==> Confirmed(grp, hash, View(), server)
    {
      var proof := ComputeM();
      var reply := server(proof.value);
      if reply.Err? {
        return Err(reply.error);
      }
      var expected := CheckVerification(reply.value);
      if expected.Err? {
        return Err(expected.error);
      }
      var computed := ComputeHmac(proof.value);
      var ok := VerifyHamk(expected.value, computed.value);
      r := if ok then Ok(()) else Err(ServerError);
    }

    /** `verify_challenge`: derive the key, then exchange proofs. */
    method VerifyChallenge(pin: seq<Byte>, server: seq<Byte> -> Result<PakeMessage, Status>)
      returns (r: Result<nat, Status>)
      requires grp.N > 1
      modifies this
      ensures r.Ok? <==> Verified(grp, hash, old(View()), pin, server)
      ensures r.Ok? ==> r == DerivedKey(grp, hash, old(View()), pin)
      ensures View() == var key := DerivedKey(grp, hash, old(View()), pin);
                        if key.Ok? then old(View()).(sharedKey := Some(key.value)) else old(View())
    {
      r := SetSharedKey(pin);
      if r.Err? {
        return;
      }
      var confirmed := ExchangeProofs(server);
      if confirmed.Err? {
        r := Err(confirmed.error);
      }
    }

    /** Both steps in turn, when no recent challenge makes the first one unnecessary. */
    method Handshake(pin: seq<Byte>, challenge: Result<PakeMessage, Status>,
                     server: seq<Byte> -> Result<PakeMessage, Status>)
      returns (r: Result<nat, Status>)
      requires grp.N > 1
      modifies this
      ensures r.Ok? <==> Handshakes(grp, hash, old(View()), pin, challenge, server)
      ensures r.Ok? ==>
        && r == HandshakeKey(grp, hash, old(View()), pin, challenge.value)
        && View() == WithChallenge(old(View()), challenge.value).(sharedKey := Some(r.value))
    {
      var accepted := AcceptChallenge(false, challenge);
      if accepted.Err? {
        return Err(accepted.error);
      }
      r := VerifyChallenge(pin, server);
    }
  }

  /** A decoded message of the exchange; an absent error code is 0. */
  datatype PakeMessage = PakeMessage(
    kind: int, proto: int, errCode: int, tid: seq<Byte>, B: nat, salt: nat, hamk: Option<seq<Byte>>)

  /** The secret of a session for a password, or why there is none. */
  ghost function SharedSecret(grp: Group, hash: Hash, s: Session, password: seq<Byte>): Result<nat, Status>
    requires grp.N > 1
  {
    if s.serverPublicKey.None? || s.salt.None? then Err(InvalidSession)
    else
      var B := s.serverPublicKey.value;
      var x := PasswordExponent(hash, s.username, password, s.salt.value);
      var u := Scramble(hash, ClientPublic(grp, s.clientPrivateKey), B);
      GuardedSecret(grp, Multiplier(hash, grp), u, x, B, s.clientPrivateKey)
  }

  /** The session key the client ends with, or why it stops. */
  ghost function DerivedKey(grp: Group, hash: Hash, s: Session, password: seq<Byte>): Result<nat, Status>
    requires grp.N > 1
  {
    var secret := SharedSecret(grp, hash, s, password);
    if secret.Err? then Err(secret.error) else Ok(KeyOf(hash, secret.value))
  }

  ghost predicate Acceptable(m: PakeMessage, username: seq<Byte>, N: nat)
    requires N > 1
  {
    && m.kind == SERVER_KEY_EXCHANGE && m.proto == SRP_WITH_RFC_VERIFICATION && m.errCode == 0
    && m.tid == username && m.B % N != 0
  }

  /** The server answers the client's proof with its own, made with the key the client holds. */
  ghost predicate Confirmed(grp: Group, hash: Hash, s: Session, server: seq<Byte> -> Result<PakeMessage, Status>)
    requires grp.N > 1 && s.salt.Some? && s.serverPublicKey.Some? && s.sharedKey.Some?
  {
    var A, K := ClientPublic(grp, s.clientPrivateKey), s.sharedKey.value;
    var proof := Proof(hash, grp, s.username, s.salt.value, A, s.serverPublicKey.value, K);
    var reply := server(proof);
    reply.Ok? && reply.value.kind == SERVER_VERIFICATION && reply.value.tid == s.username
    && reply.value.errCode == 0 && reply.value.hamk == Some(Hamk(hash, A, proof, K))
  }

  /** What it takes for `VerifyChallenge` to succeed. */
  ghost predicate Verified(grp: Group, hash: Hash, s: Session, pin: seq<Byte>,
                           server: seq<Byte> -> Result<PakeMessage, Status>)
    requires grp.N > 1
  {
    var key := DerivedKey(grp, hash, s, pin);
    key.Ok? && Confirmed(grp, hash, s.(sharedKey := Some(key.value)), server)
  }

  ghost function WithChallenge(s: Session, challenge: PakeMessage): Session {
    s.(serverPublicKey := Some(challenge.B), salt := Some(challenge.salt))
  }

  /** What it takes for both steps, the challenge and its verification, to succeed. */
  ghost predicate Handshakes(grp: Group, hash: Hash, s: Session, pin: seq<Byte>, challenge: Result<PakeMessage, Status>,
                             server: seq<Byte> -> Result<PakeMessage, Status>)
    requires grp.N > 1
  {
    challenge.Ok? && Acceptable(challenge.value, s.username, grp.N)
    && Verified(grp, hash, WithChallenge(s, challenge.value), pin, server)
  }

  ghost function HandshakeKey(grp: Group, hash: Hash, s: Session, pin: seq<Byte>, challenge: PakeMessage)
    : Result<nat, Status>
    requires grp.N > 1
  {
    DerivedKey(grp, hash, WithChallenge(s, challenge), pin)
  }

  // ---------- an honest server ----------

  /** The server of section 2.6, holding a verifier `v` and an ephemeral `b`; it never sees `x` or `a`. */
  ghost function HonestServerKey(grp: Group, hash: Hash, v: nat, b: nat): nat
    requires grp.N > 1
  {
    ServerPublic(grp.N, grp.g, Multiplier(hash, grp), v, b)
  }

  /** The verifiers of a password: the numbers congruent to g^x, by how often the modulus is added. */
  ghost function Verifier(grp: Group, hash: Hash, username: seq<Byte>, password: seq<Byte>, salt: nat, lift: nat): nat
    requires grp.N > 1
  {
    Lifted(Pow(grp.g, PasswordExponent(hash, username, password, salt)), grp.N, lift)
  }

  ghost function HonestSessionKey(grp: Group, hash: Hash, v: nat, b: nat, A: nat): nat
    requires grp.N > 1
  {
    KeyOf(hash, ServerSecret(grp.N, A, v, Scramble(hash, A, HonestServerKey(grp, hash, v, b)), b))
  }

  ghost function HonestReply(grp: Group, hash: Hash, username: seq<Byte>, v: nat, b: nat, A: nat,
                             proof: seq<Byte>): PakeMessage
    requires grp.N > 1
  {
    var K := HonestSessionKey(grp, hash, v, b, A);
    PakeMessage(SERVER_VERIFICATION, SRP_WITH_RFC_VERIFICATION, 0, username,
                HonestServerKey(grp, hash, v, b), 0, Some(Hamk(hash, A, proof, K)))
  }

  /** The honest server's side of the proof exchange with the client of public key `A`. */
  ghost function HonestServer(grp: Group, hash: Hash, username: seq<Byte>, v: nat, b: nat, A: nat)
    : seq<Byte> -> Result<PakeMessage, Status>
    requires grp.N > 1
  {
    (proof: seq<Byte>) => Ok(HonestReply(grp, hash, username, v, b, A, proof))
  }

  /** What the honest server opens with. */
  ghost function HonestChallenge(grp: Group, hash: Hash, username: seq<Byte>, v: nat, b: nat, salt: nat): PakeMessage
    requires grp.N > 1
  {
    PakeMessage(SERVER_KEY_EXCHANGE, SRP_WITH_RFC_VERIFICATION, 0, username, HonestServerKey(grp, hash, v, b), salt,
                None)
  }

  /** The client's session once it has taken the honest server's challenge. */
  ghost function Challenged(grp: Group, hash: Hash, username: seq<Byte>, a: nat, v: nat, b: nat, salt: nat,
                            earlier: Option<nat>): Session
    requires grp.N > 1
  {
    Session(username, a, Some(HonestServerKey(grp, hash, v, b)), Some(salt), earlier)
  }

  /**
   * Once its challenge has been taken, an honest server that holds a verifier of the typed
   * password is accepted exactly when N does not divide g^b, and the client then holds its key.
   */
  lemma HonestServerIsAccepted(grp: Group, hash: Hash, username: seq<Byte>, a: nat, pin: seq<Byte>, lift: nat, b: nat,
                               salt: nat, earlier: Option<nat>)
    requires grp.N > 1
    ensures var v := Verifier(grp, hash, username, pin, salt, lift);
            var s := Challenged(grp, hash, username, a, v, b, salt, earlier);
            var server := HonestServer(grp, hash, username, v, b, ClientPublic(grp, a));
      && (Verified(grp, hash, s, pin, server) <==> Pow(grp.g, b) % grp.N != 0)
      && (Verified(grp, hash, s, pin, server) ==>
            DerivedKey(grp, hash, s, pin) == Ok(HonestSessionKey(grp, hash, v, b, ClientPublic(grp, a))))
  {
    HonestKeysMatch(grp, hash, username, a, pin, lift, b, salt, earlier);
  }

  /**
   * The whole handshake, whatever the session held before: against an honest server the client
   * succeeds exactly when N divides neither the server's public key, which it refuses at once,
   * nor g^b, which makes its base zero; it then holds the server's key.
   */
  lemma HonestHandshakeExactly(grp: Group, hash: Hash, s: Session, pin: seq<Byte>, lift: nat, b: nat, salt: nat)
    requires grp.N > 1
    ensures var v := Verifier(grp, hash, s.username, pin, salt, lift);
            var challenge := Ok(HonestChallenge(grp, hash, s.username, v, b, salt));
            var A := ClientPublic(grp, s.clientPrivateKey);
            var server := HonestServer(grp, hash, s.username, v, b, A);
      && (Handshakes(grp, hash, s, pin, challenge, server)
          <==> (HonestServerKey(grp, hash, v, b) % grp.N != 0 && Pow(grp.g, b) % grp.N != 0))
      && (Handshakes(grp, hash, s, pin, challenge, server) ==>
            HandshakeKey(grp, hash, s, pin, challenge.value) == Ok(HonestSessionKey(grp, hash, v, b, A)))
  {
    var v := Verifier(grp, hash, s.username, pin, salt, lift);
    HonestServerIsAccepted(grp, hash, s.username, s.clientPrivateKey, pin, lift, b, salt, s.sharedKey);
    assert WithChallenge(s, HonestChallenge(grp, hash, s.username, v, b, salt))
        == Challenged(grp, hash, s.username, s.clientPrivateKey, v, b, salt, s.sharedKey);
  }

  /** The second refusal never meets a server whose generator has an inverse modulo N. */
  lemma InvertiblePowersStay(N: nat, g: nat, inverse: nat, b: nat)
    requires N > 1 && (g * inverse) % N == 1
    ensures Pow(g, b) % N != 0
  {
    QuotientUnique(1, N, 0, 1);
    ModPow(g * inverse, 1, b, N);
    PowOfOne(b);
    PowOfProduct(g, inverse, b);
    FactorOfOne(Pow(g, b), Pow(inverse, b), N);
  }

  lemma FactorOfOne(p: int, q: int, N: nat)
    requires N > 1 && (p * q) % N == 1
    ensures p % N != 0
  {
    ZeroTimes(q, N);
    if p % N == 0 {
      ModMulLeft(p, 0, q, N);
      assert false;
    }
  }

  lemma ZeroTimes(q: int, N: nat)
    requires N > 1
    ensures (0 * q) % N == 0 && 0 % N == 0
  {
    QuotientUnique(0, N, 0, 0);
  }

  /**
   * The first refusal happens where the second does not: with N = 2 and g = 1, where 1 is a
   * verifier of every password, the server's key vanishes exactly when the multiplier is odd.
   */
  lemma HonestKeyCanVanish(hash: Hash, x: nat, b: nat)
    ensures 1 % 2 == Pow(1, x) % 2 && Pow(1, b) % 2 != 0
    ensures HonestServerKey(Group(2, 1), hash, 1, b) % 2 == 0 <==> Multiplier(hash, Group(2, 1)) % 2 == 1
  {
    PowOfOne(x);
    PowOfOne(b);
    PublicKeyVanishes(Multiplier(hash, Group(2, 1)), b);
  }

  /** A hash that makes the multiplier odd. */
  ghost function EndsInOne(): Hash {
    (m: seq<Byte>) => Zeros(HASH_BYTES - 1) + [1]
  }

  lemma HonestKeyVanishes(b: nat)
    ensures HonestServerKey(Group(2, 1), EndsInOne(), 1, b) % 2 == 0 && Pow(1, b) % 2 != 0
  {
    FromBytesConcat(Zeros(HASH_BYTES - 1), [1]);
    ZerosAreZero(Zeros(HASH_BYTES - 1));
    assert FromBytes([1]) == 1 by {
      assert [1][..0] == [];
    }
    assert Multiplier(EndsInOne(), Group(2, 1)) == 0 * Capacity(1) + 1;
    HonestKeyCanVanish(EndsInOne(), 0, b);
  }

  lemma PublicKeyVanishes(k: nat, b: nat)
    ensures ServerPublic(2, 1, k, 1, b) % 2 == 0 <==> k % 2 == 1
  {
    PowOfOne(b);
    NextIsEven(k);
  }

  lemma NextIsEven(k: nat)
    ensures ((k * 1 + 1) % 2) % 2 == 0 <==> k % 2 == 1
  {
  }

  lemma {:induction false} PowOfOne(e: nat)
    ensures Pow(1, e) == 1
  {
    if e > 0 {
      PowOfOne(e - 1);
    }
  }

  lemma HonestKeysMatch(grp: Group, hash: Hash, username: seq<Byte>, a: nat, pin: seq<Byte>, lift: nat, b: nat,
                        salt: nat, earlier: Option<nat>)
    requires grp.N > 1
    ensures var v := Verifier(grp, hash, username, pin, salt, lift);
      DerivedKey(grp, hash, Challenged(grp, hash, username, a, v, b, salt, earlier), pin) ==
      if Pow(grp.g, b) % grp.N == 0 then Err(ServerError)
      else Ok(HonestSessionKey(grp, hash, v, b, ClientPublic(grp, a)))
  {
    var v := Verifier(grp, hash, username, pin, salt, lift);
    var A, B := ClientPublic(grp, a), HonestServerKey(grp, hash, v, b);
    var x, u := PasswordExponent(hash, username, pin, salt), Scramble(hash, A, B);
    GuardedAgreement(grp, Multiplier(hash, grp), u, x, a, b, v);
  }

  lemma GuardedAgreement(grp: Group, k: nat, u: nat, x: nat, a: nat, b: nat, v: nat)
    requires grp.N > 1 && v % grp.N == Pow(grp.g, x) % grp.N
    ensures GuardedSecret(grp, k, u, x, ServerPublic(grp.N, grp.g, k, v, b), a) ==
      if Pow(grp.g, b) % grp.N == 0 then Err(ServerError) else Ok(ServerSecret(grp.N, ClientPublic(grp, a), v, u, b))
  {
    BaseIsServerPower(grp.N, grp.g, k, x, v, b);
    Agreement(grp.N, grp.g, k, u, x, a, b, v);
  }

  /**
   * Rust and Deno, given the same k, u, x and a, raise to the same group secret; Rust
   * refuses exactly the zero base, where Deno goes on with 0^(a + u x).
   */
  lemma ClientsShareTheSecret(grp: Group, k: nat, u: nat, x: nat, B: nat, a: nat)
    requires grp.N > 1
    ensures var rust := GuardedSecret(grp, k, u, x, B, a);
            var deno := PowerMod.DenoPower(B - k * (Pow(grp.g, x) % grp.N), a + u * x, grp.N);
            deno == if rust.Ok? then Ok(rust.value) else Ok(if a + u * x == 0 then 1 else 0)
  {
    var N, gx, e := grp.N, Pow(grp.g, x) % grp.N, a + u * x;
    ModIdempotent(B - k * gx, N);
    ModPow(B - k * gx, (B - k * gx) % N, e, N);
    if (B - k * gx) % N == 0 {
      QuotientUnique(1, N, 0, 1);
      QuotientUnique(0, N, 0, 0);
      assert e > 0 ==> Pow(0, e) == 0;
    }
  }
}

/** The key-derivation worker: a `derive` request turns a password into a
    32-byte master key with Argon2id when that library loads and with PBKDF2
    otherwise, under a supplied or random salt, and posts exactly one reply.
    The two derivation functions and the random salt are parameters. */
module CryptoWorker {
  import opened Wrappers
  import opened Bytes
  import Js

  /** A message to the worker. `salt` is the base64 salt, "" when absent
      (every falsy salt takes the same path). */
  datatype Request = Request(
    kind: Js.Value,
    password: Js.Value,
    salt: string,
    time: Js.Value,
    mem: Js.Value,
    parallelism: Js.Value,
    iterations: Js.Value)

  datatype CryptoMessage =
    | Derived(masterKey: string, salt: string, algo: string)
    | Error(message: string)

  const DERIVE := Js.Str("derive")
  const DEFAULT_TIME: real := 3.0
  const DEFAULT_MEM: real := 65536.0
  const DEFAULT_PARALLELISM: real := 1.0
  const DEFAULT_ITERATIONS: real := 250000.0
  const SALT_BYTES: nat := 16
  const HASH_LEN: nat := 32
  const DERIVED_BITS: nat := 256

  /** Argon2id as the library computes it: password, base64 salt, time,
      memory, parallelism and hash length give the hash in hex, or an error. */
  type Argon2 = (Js.Value, string, real, real, real, nat) -> Result<string, string>

  /** PBKDF2-SHA-256 as the platform computes it: password, salt, iteration
      count and bit length give the derived bits, or an error. */
  type Pbkdf2 = (Js.Value, seq<Byte>, real, nat) -> Result<seq<Byte>, string>

  /** `msg.password || ''`. */
  function Password(req: Request): (p: Js.Value)
    ensures Js.Truthy(req.password) ==> p == req.password
    ensures !Js.Truthy(req.password) ==> p == Js.Str("")
  {
    if Js.Truthy(req.password) then req.password else Js.Str("")
  }

  /** The Argon2id cost parameters: each field that is not a finite number
      takes its default. */
  function Argon2Params(req: Request): (p: (real, real, real))
    ensures !Js.IsFinite(req.time) ==> p.0 == DEFAULT_TIME
    ensures !Js.IsFinite(req.mem) ==> p.1 == DEFAULT_MEM
    ensures !Js.IsFinite(req.parallelism) ==> p.2 == DEFAULT_PARALLELISM
    ensures Js.IsFinite(req.time) ==> p.0 == req.time.x
    ensures Js.IsFinite(req.mem) ==> p.1 == req.mem.x
    ensures Js.IsFinite(req.parallelism) ==> p.2 == req.parallelism.x
  {
    (Js.FiniteOr(req.time, DEFAULT_TIME), Js.FiniteOr(req.mem, DEFAULT_MEM),
     Js.FiniteOr(req.parallelism, DEFAULT_PARALLELISM))
  }

  /** The PBKDF2 iteration count, 250000 unless a finite number is given. */
  function Iterations(req: Request): (n: real)
    ensures !Js.IsFinite(req.iterations) ==> n == DEFAULT_ITERATIONS
    ensures Js.IsFinite(req.iterations) ==> n == req.iterations.x
  {
    Js.FiniteOr(req.iterations, DEFAULT_ITERATIONS)
  }

  /** The salt bytes: the supplied salt decoded, or the random ones; `None`
      when the supplied salt is not base64 (`atob` throws). */
  function SaltBytes(req: Request, randomSalt: seq<Byte>): (r: Option<seq<Byte>>)
    ensures req.salt == "" ==> r == Some(randomSalt)
    ensures req.salt != "" ==> r == ForgivingDecode(req.salt)
  {
    if req.salt == "" then Some(randomSalt) else ForgivingDecode(req.salt)
  }

  /** The reply to a `derive` request. */
  function DeriveOutcome(req: Request, argon2Loaded: bool, argon2: Argon2, pbkdf2: Pbkdf2, randomSalt: seq<Byte>)
    : CryptoMessage
  {
    if argon2Loaded then
      match SaltBytes(req, randomSalt)
      case None => Error(INVALID_CHARACTER)
      case Some(salt) =>
        var (time, mem, parallelism) := Argon2Params(req);
        match argon2(Password(req), Base64Encode(salt), time, mem, parallelism, HASH_LEN)
        case Err(e) => Error(e)
        case Ok(hashHex) => Derived(Base64Encode(HexDecode(hashHex)), Base64Encode(salt), "argon2id")
    else
      var iterations := Iterations(req);
      match SaltBytes(req, randomSalt)
      case None => Error(INVALID_CHARACTER)
      case Some(salt) =>
        match pbkdf2(Password(req), salt, iterations, DERIVED_BITS)
        case Err(e) => Error(e)
        case Ok(bits) => Derived(Base64Encode(bits), Base64Encode(salt), "PBKDF2")
  }

  /** The messages the worker posts for one incoming message: none unless
      it is a `derive` request. */
  function Replies(req: Request, argon2Loaded: bool, argon2: Argon2, pbkdf2: Pbkdf2, randomSalt: seq<Byte>)
    : seq<CryptoMessage>
  {
    if req.kind == DERIVE then [DeriveOutcome(req, argon2Loaded, argon2, pbkdf2, randomSalt)] else []
  }

  /** What a derive reply promises: exactly one message; the algorithm tag
      follows the library's availability; the reported salt decodes to the
      salt used (the supplied one or the random one); the reported key
      decodes to the derivation's output, 32 bytes when Argon2id returns 64
      hex digits; and an error message exactly when decoding the salt or
      the derivation fails. */
  lemma DeriveReplies(req: Request, argon2Loaded: bool, argon2: Argon2, pbkdf2: Pbkdf2, randomSalt: seq<Byte>)
    ensures req.kind != DERIVE ==> Replies(req, argon2Loaded, argon2, pbkdf2, randomSalt) == []
    ensures req.kind == DERIVE ==> |Replies(req, argon2Loaded, argon2, pbkdf2, randomSalt)| == 1
    ensures var m := DeriveOutcome(req, argon2Loaded, argon2, pbkdf2, randomSalt);
      && (SaltBytes(req, randomSalt).None? ==> m == Error(INVALID_CHARACTER))
      && (m.Derived? ==> SaltBytes(req, randomSalt).Some? && ForgivingDecode(m.salt) == SaltBytes(req, randomSalt))
      && (m.Derived? ==> m.algo == if argon2Loaded then "argon2id" else "PBKDF2")
    ensures var m := DeriveOutcome(req, argon2Loaded, argon2, pbkdf2, randomSalt);
      var p := Argon2Params(req);
      argon2Loaded && SaltBytes(req, randomSalt).Some? ==>
        var salt := SaltBytes(req, randomSalt).value;
        var hashed := argon2(Password(req), Base64Encode(salt), p.0, p.1, p.2, HASH_LEN);
        && (m.Derived? <==> hashed.Ok?)
        && (hashed.Err? ==> m == Error(hashed.error))
        && (hashed.Ok? ==> ForgivingDecode(m.masterKey) == Some(HexDecode(hashed.value)))
        && (hashed.Ok? && |hashed.value| == 2 * HASH_LEN ==> |HexDecode(hashed.value)| == HASH_LEN)
    ensures var m := DeriveOutcome(req, argon2Loaded, argon2, pbkdf2, randomSalt);
      !argon2Loaded && SaltBytes(req, randomSalt).Some? ==>
        var bits := pbkdf2(Password(req), SaltBytes(req, randomSalt).value, Iterations(req), DERIVED_BITS);
        && (m.Derived? <==> bits.Ok?)
        && (bits.Err? ==> m == Error(bits.error))
        && (bits.Ok? ==> ForgivingDecode(m.masterKey) == Some(bits.value))
  {
    var m := DeriveOutcome(req, argon2Loaded, argon2, pbkdf2, randomSalt);
    var salt := SaltBytes(req, randomSalt);
    if salt.Some? {
      Base64RoundTrip(salt.value);
      if m.Derived? {
        if argon2Loaded {
          var p := Argon2Params(req);
          var hashed := argon2(Password(req), Base64Encode(salt.value), p.0, p.1, p.2, HASH_LEN);
          Base64RoundTrip(HexDecode(hashed.value));
        } else {
          var bits := pbkdf2(Password(req), salt.value, Iterations(req), DERIVED_BITS);
          Base64RoundTrip(bits.value);
        }
      }
    }
  }

  /** The message listener, step by step: the salt through
      `base64ToUint8`, the key and salt through `uint8ToBase64`, the Argon2id
      hex through `hexToUint8`. `randomSalt` is what `getRandomValues` fills. */
  method OnMessage(req: Request, argon2Loaded: bool, argon2: Argon2, pbkdf2: Pbkdf2, randomSalt: seq<Byte>)
    returns (posted: seq<CryptoMessage>)
    requires |randomSalt| == SALT_BYTES
    ensures posted == Replies(req, argon2Loaded, argon2, pbkdf2, randomSalt)
  {
    if req.kind != DERIVE {
      return [];
    }
    var password := if Js.Truthy(req.password) then req.password else Js.Str("");
    if argon2Loaded {
      var saltU8 := randomSalt;
      if req.salt != "" {
        var decoded := Base64ToUint8(req.salt);
        if decoded.None? {
          return [Error(INVALID_CHARACTER)];
        }
        saltU8 := decoded.value;
      }
      var saltB64 := Uint8ToBase64(saltU8);
      var time := if req.time.Num? then req.time.x else DEFAULT_TIME;
      var mem := if req.mem.Num? then req.mem.x else DEFAULT_MEM;
      var parallelism := if req.parallelism.Num? then req.parallelism.x else DEFAULT_PARALLELISM;
      var res := argon2(password, saltB64, time, mem, parallelism, HASH_LEN);
      if res.Err? {
        return [Error(res.error)];
      }
      var masterKey := HexToUint8(res.value);
      var keyB64 := Uint8ToBase64(masterKey);
      posted := [Derived(keyB64, saltB64, "argon2id")];
    } else {
      var iterations := if req.iterations.Num? then req.iterations.x else DEFAULT_ITERATIONS;
      var salt := randomSalt;
      if req.salt != "" {
        var decoded := Base64ToUint8(req.salt);
        if decoded.None? {
          return [Error(INVALID_CHARACTER)];
        }
        salt := decoded.value;
      }
      var derivedBits := pbkdf2(password, salt, iterations, DERIVED_BITS);
      if derivedBits.Err? {
        return [Error(derivedBits.error)];
      }
      var keyB64 := Uint8ToBase64(derivedBits.value);
      var saltB64 := Uint8ToBase64(salt);
      posted := [Derived(keyB64, saltB64, "PBKDF2")];
    }
  }
}

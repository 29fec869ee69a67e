/**
 * The password hasher of app.py: which bytes reach bcrypt, the always-prehash
 * fallback of `safe_hash_password`, and the two attempts of `safe_verify_password`.
 * bcrypt and SHA-256 are not modelled: they are the function values of a `Crypto`,
 * and the one fact about bcrypt the proofs rely on is the premise `Sound`.
 */
module PasswordHasher {
  import opened Wrappers
  import opened Utf8

  /** bcrypt reads at most this many bytes of its input. */
  const BCRYPT_MAX_INPUT := 72

  /** The 32 bytes of a SHA-256 digest. */
  type Digest = d: Bytes | |d| == 32 witness seq(32, i => 0)

  /** What `bcrypt.checkpw` does: answers, or raises (a malformed stored hash, say). */
  datatype CheckResult = Match | Mismatch | Raised

  /**
   * The foreign primitives.
   * `hashpw(input, salt)` is `bcrypt.hashpw(input, salt).decode('utf-8')` for the salt
   * `bcrypt.gensalt()` produced, or None when either of them raised;
   * `checkpw(input, storedBytes)` is `bcrypt.checkpw`;
   * `refuses(input)` says that bcrypt rejects the password bytes themselves
   * (some bcrypt versions, for instance, reject a NUL byte), the same way in both.
   */
  datatype Crypto = Crypto(
    sha256: Bytes -> Digest,
    hashpw: (Bytes, Bytes) -> Option<string>,
    checkpw: (Bytes, Bytes) -> CheckResult,
    refuses: Bytes -> bool)

  /**
   * What bcrypt is relied on for, for inputs it reads in full: a hash it produced
   * matches the input it was produced from; checking an input it accepts against
   * a hash it produced answers rather than raises; and an input it refuses makes
   * both `hashpw` and `checkpw` raise.
   */
  ghost predicate Sound(c: Crypto) {
    && (forall pw: Bytes, salt: Bytes ::
          |pw| <= BCRYPT_MAX_INPUT && c.hashpw(pw, salt).Some? ==>
            c.checkpw(pw, Encode(c.hashpw(pw, salt).value)) == Match)
    && (forall pw: Bytes, other: Bytes, salt: Bytes ::
          |pw| <= BCRYPT_MAX_INPUT && |other| <= BCRYPT_MAX_INPUT && !c.refuses(pw) &&
          c.hashpw(other, salt).Some? ==>
            c.checkpw(pw, Encode(c.hashpw(other, salt).value)) != Raised)
    && (forall pw: Bytes, salt: Bytes :: c.refuses(pw) ==> c.hashpw(pw, salt).None?)
    && (forall pw: Bytes, h: Bytes :: c.refuses(pw) ==> c.checkpw(pw, h) == Raised)
  }

  predicate IsLowerHexDigit(ch: char) {
    '0' <= ch <= '9' || 'a' <= ch <= 'f'
  }

  function HexDigit(n: int): (ch: char)
    requires 0 <= n < 16
    ensures IsLowerHexDigit(ch)
  {
    if n < 10 then ('0' as int + n) as char else ('a' as int + n - 10) as char
  }

  /** Python's `hexdigest()`: two lower-case hex digits per byte. */
  function HexDigest(d: Bytes): (r: string)
    ensures |r| == 2 * |d|
    ensures forall i :: 0 <= i < |r| ==> IsLowerHexDigit(r[i])
    ensures forall i :: 0 <= i < |d| ==> r[2 * i] == HexDigit(d[i] / 16) && r[2 * i + 1] == HexDigit(d[i] % 16)
  {
    if d == [] then "" else [HexDigit(d[0] / 16), HexDigit(d[0] % 16)] + HexDigest(d[1..])
  }

  lemma HexIsAscii(s: string)
    requires forall i :: 0 <= i < |s| ==> IsLowerHexDigit(s[i])
    ensures IsAscii(s)
  {
  }

  /**
   * `hashlib.sha256(b).hexdigest().encode('utf-8')`: always 64 bytes, each the code
   * of a lower-case hex digit.
   */
  function Prehash(c: Crypto, b: Bytes): (r: Bytes)
    ensures |r| == 64
    ensures forall i :: 0 <= i < 64 ==> IsLowerHexDigit(r[i] as char)
  {
    var hex := HexDigest(c.sha256(b));
    HexIsAscii(hex);
    EncodeAscii(hex);
    Encode(hex)
  }

  /**
   * The bytes `safe_hash_password` gives bcrypt on its main path: the UTF-8
   * encoding when it has at most 72 bytes, otherwise the 64-byte hex digest of it.
   * Either way bcrypt reads all of them.
   */
  function BcryptInput(c: Crypto, password: string): (r: Bytes)
    ensures |r| <= BCRYPT_MAX_INPUT
    ensures |Encode(password)| <= BCRYPT_MAX_INPUT ==> r == Encode(password)
    ensures |Encode(password)| > BCRYPT_MAX_INPUT ==> r == Prehash(c, Encode(password))
  {
    var b := Encode(password);
    if |b| > BCRYPT_MAX_INPUT then Prehash(c, b) else b
  }

  /**
   * `safe_hash_password`: the main path first; if it raised, the fallback that
   * always prehashes, with a fresh salt. None only when both attempts failed.
   */
  function SafeHashPassword(c: Crypto, password: string, salt: Bytes, fallbackSalt: Bytes): (r: Option<string>)
    ensures r.None? <==>
      c.hashpw(BcryptInput(c, password), salt).None? &&
      c.hashpw(Prehash(c, Encode(password)), fallbackSalt).None?
    ensures c.hashpw(BcryptInput(c, password), salt).Some? ==> r == c.hashpw(BcryptInput(c, password), salt)
    ensures c.hashpw(BcryptInput(c, password), salt).None? ==>
      r == c.hashpw(Prehash(c, Encode(password)), fallbackSalt)
  {
    var main := c.hashpw(BcryptInput(c, password), salt);
    if main.Some? then main else c.hashpw(Prehash(c, Encode(password)), fallbackSalt)
  }

  /**
   * `safe_verify_password`. `stored` is None when the record has no hash or a
   * value that is not a string (the attribute error is caught). Short passwords
   * are checked raw first; a mismatch falls through to the prehash check. Any
   * exception from bcrypt makes the answer false.
   */
  function SafeVerifyPassword(c: Crypto, password: string, stored: Option<string>): (ok: bool)
    ensures stored.None? ==> !ok
    ensures stored.Some? ==>
      var short := |Encode(password)| <= BCRYPT_MAX_INPUT;
      var raw := c.checkpw(Encode(password), Encode(stored.value));
      var pre := c.checkpw(Prehash(c, Encode(password)), Encode(stored.value));
      (ok <==> (short && raw == Match) || ((!short || raw == Mismatch) && pre == Match))
    ensures (stored.Some? && |Encode(password)| <= BCRYPT_MAX_INPUT &&
             c.checkpw(Encode(password), Encode(stored.value)) == Raised) ==> !ok
  {
    match stored
    case None => false
    case Some(h) =>
      var pb := Encode(password);
      var hb := Encode(h);
      if |pb| <= BCRYPT_MAX_INPUT then
        match c.checkpw(pb, hb)
        case Match => true
        case Raised => false
        case Mismatch => c.checkpw(Prehash(c, pb), hb) == Match
      else
        c.checkpw(Prehash(c, pb), hb) == Match
  }

  /**
   * A hash made from `password` verifies against `password`, on either path,
   * except in one case: a password of at most 72 bytes that bcrypt refuses is
   * hashed through the fallback, but verify checks it raw first, bcrypt raises,
   * and the exception makes the answer false before the digest is tried.
   */
  lemma {:induction false} HashThenVerify(c: Crypto, password: string, salt: Bytes, fallbackSalt: Bytes)
    requires Sound(c)
    requires SafeHashPassword(c, password, salt, fallbackSalt).Some?
    ensures SafeVerifyPassword(c, password, SafeHashPassword(c, password, salt, fallbackSalt)) <==>
      !(|Encode(password)| <= BCRYPT_MAX_INPUT && c.refuses(Encode(password)))
  {
    var pb := Encode(password);
    var pre := Prehash(c, pb);
    var h := SafeHashPassword(c, password, salt, fallbackSalt).value;
    if c.hashpw(BcryptInput(c, password), salt).Some? {
      if |pb| <= BCRYPT_MAX_INPUT {
        assert !c.refuses(pb);
        assert c.checkpw(pb, Encode(c.hashpw(pb, salt).value)) == Match;
      } else {
        assert c.checkpw(pre, Encode(c.hashpw(pre, salt).value)) == Match;
      }
    } else {
      assert h == c.hashpw(pre, fallbackSalt).value;
      assert c.checkpw(pre, Encode(c.hashpw(pre, fallbackSalt).value)) == Match;
      if |pb| <= BCRYPT_MAX_INPUT {
        if c.refuses(pb) {
          RefusedShortPasswordNeverVerifies(c, password, Some(h));
        } else {
          assert c.checkpw(pb, Encode(c.hashpw(pre, fallbackSalt).value)) != Raised;
        }
      }
    }
  }

  /**
   * A password of at most 72 bytes that bcrypt refuses verifies against no
   * stored hash at all, the one its own fallback produced included.
   */
  lemma RefusedShortPasswordNeverVerifies(c: Crypto, password: string, stored: Option<string>)
    requires Sound(c)
    requires |Encode(password)| <= BCRYPT_MAX_INPUT && c.refuses(Encode(password))
    ensures !SafeVerifyPassword(c, password, stored)
  {
    if stored.Some? {
      assert c.checkpw(Encode(password), Encode(stored.value)) == Raised;
    }
  }

  /**
   * Such a password is still stored: the main attempt raises and the fallback
   * hashes its digest, which bcrypt accepts.
   */
  lemma RefusedShortPasswordIsStored(c: Crypto, password: string, salt: Bytes, fallbackSalt: Bytes)
    requires Sound(c)
    requires |Encode(password)| <= BCRYPT_MAX_INPUT && c.refuses(Encode(password))
    requires c.hashpw(Prehash(c, Encode(password)), fallbackSalt).Some?
    ensures SafeHashPassword(c, password, salt, fallbackSalt) == c.hashpw(Prehash(c, Encode(password)), fallbackSalt)
    ensures !SafeVerifyPassword(c, password, SafeHashPassword(c, password, salt, fallbackSalt))
  {
    assert c.hashpw(Encode(password), salt).None?;
    RefusedShortPasswordNeverVerifies(c, password, SafeHashPassword(c, password, salt, fallbackSalt));
  }

  /**
   * For a password longer than 72 bytes, its 64-character hex SHA-256 digest is
   * a different string that verifies against the same hash: verify checks that
   * string raw, and its bytes are exactly what bcrypt hashed.
   */
  lemma {:induction false} DigestStringVerifies(c: Crypto, password: string, salt: Bytes, fallbackSalt: Bytes)
    requires Sound(c)
    requires |Encode(password)| > BCRYPT_MAX_INPUT
    requires SafeHashPassword(c, password, salt, fallbackSalt).Some?
    ensures HexDigest(c.sha256(Encode(password))) != password
    ensures SafeVerifyPassword(c, HexDigest(c.sha256(Encode(password))),
                               SafeHashPassword(c, password, salt, fallbackSalt))
  {
    var pb := Encode(password);
    var q := HexDigest(c.sha256(pb));
    var pre := Prehash(c, pb);
    HexIsAscii(q);
    EncodeAscii(q);
    assert Encode(q) == pre;
    if c.hashpw(pre, salt).Some? {
      assert c.checkpw(pre, Encode(c.hashpw(pre, salt).value)) == Match;
    } else {
      assert c.checkpw(pre, Encode(c.hashpw(pre, fallbackSalt).value)) == Match;
    }
  }

  /**
   * Text whose characters all need two bytes crosses the 72-byte threshold with
   * only 37 characters, so it takes the prehash path.
   */
  lemma {:induction false} TwoByteText(c: Crypto, s: string)
    requires forall i :: 0 <= i < |s| ==> 0x80 <= s[i] as int < 0x800
    ensures |Encode(s)| == 2 * |s|
    ensures |s| > 36 ==> BcryptInput(c, s) == Prehash(c, Encode(s))
  {
    if s != [] {
      TwoByteText(c, s[1..]);
    }
  }
}

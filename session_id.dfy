/**
 * `FixedRedisSessionInterface._generate_sid`: whatever the session backend's
 * generator returns, the identifier handed to the cookie layer is text. How the
 * backend draws its random identifier is not modelled; its value is the input.
 */
module SessionId {
  import opened Wrappers
  import opened Utf8

  /** What the backend's generator may return. */
  datatype RawSid = SidBytes(bytes: Bytes) | SidText(text: string)

  /**
   * Text passes through; bytes are decoded as UTF-8, and None stands for the
   * UnicodeDecodeError that bytes which are not UTF-8 raise. A decoded id
   * encodes back to exactly the bytes it came from.
   */
  function GenerateSid(raw: RawSid): (r: Option<string>)
    ensures raw.SidText? ==> r == Some(raw.text)
    ensures raw.SidBytes? && r.Some? ==> Encode(r.value) == raw.bytes
  {
    match raw
    case SidText(t) => Some(t)
    case SidBytes(b) =>
      if Decode(b).Some? then EncodeDecode(b); Decode(b) else None
  }

  /** Bytes that are the UTF-8 form of some text always normalise, to that text. */
  lemma GenerateSidOfEncoded(t: string)
    ensures GenerateSid(SidBytes(Encode(t))) == Some(t)
  {
    DecodeEncode(t);
  }

  /**
   * Normalisation loses nothing: two byte identifiers that normalise to the same
   * text are the same identifier, so a text key finds exactly one session.
   */
  lemma GenerateSidInjective(a: Bytes, b: Bytes)
    requires GenerateSid(SidBytes(a)).Some?
    requires GenerateSid(SidBytes(a)) == GenerateSid(SidBytes(b))
    ensures a == b
  {
  }

  /** Normalising an already normalised identifier changes nothing. */
  lemma GenerateSidIdempotent(raw: RawSid)
    requires GenerateSid(raw).Some?
    ensures GenerateSid(SidText(GenerateSid(raw).value)) == GenerateSid(raw)
  {
  }
}

/** Certificates, instants and the time arithmetic of Go's time package, in nanoseconds. */
module Certificates {

  type Time = int
  type Duration = int

  const SECOND: Duration := 1_000_000_000
  const MAX_DURATION: Duration := 0x7fff_ffff_ffff_ffff
  const MIN_DURATION: Duration := -0x8000_0000_0000_0000

  /** A parsed CA certificate; `key` names its public key and `signer` the key that signed it. */
  datatype Certificate = Certificate(
    key: nat,
    signer: nat,
    isCA: bool,
    basicConstraints: bool,
    certSign: bool,
    notBefore: Time,
    notAfter: Time,
    permitted: seq<string>,
    excluded: seq<string>)

  /** A parsed leaf certificate; `serial` tells separately issued leaves apart. */
  datatype Leaf = Leaf(serial: nat, host: string, notBefore: Time, notAfter: Time)

  datatype Window = NotYetValid | Inside | Expired

  /** Encoding a certificate keeps whole seconds only. */
  function WholeSecond(t: Time): Time {
    t - t % SECOND
  }

  /** Time.Sub saturates at the ends of the 64-bit duration range. */
  function Sub(a: Time, b: Time): Duration {
    if a - b > MAX_DURATION then MAX_DURATION
    else if a - b < MIN_DURATION then MIN_DURATION
    else a - b
  }

  /** Go's integer division truncates toward zero. */
  function Third(d: Duration): Duration {
    if d >= 0 then d / 3 else -(-d / 3)
  }

  function Min(a: Time, b: Time): Time {
    if b < a then b else a
  }

  function ValidAt(cert: Certificate, now: Time): Window {
    if now < cert.notBefore then NotYetValid
    else if now >= cert.notAfter then Expired
    else Inside
  }

  predicate ValidCA(cert: Certificate) {
    cert.isCA && cert.basicConstraints && cert.certSign
  }

  /** Chain verification as far as it is visible here: the signature and the validity window. */
  predicate Chains(cert: Certificate, root: Certificate, now: Time) {
    && cert.signer == root.key
    && cert.notBefore <= now <= cert.notAfter
    && root.notBefore <= now <= root.notAfter
  }

  /** Validity times read back from an encoded certificate. */
  predicate Parsed(cert: Certificate) {
    WholeSecond(cert.notBefore) == cert.notBefore && WholeSecond(cert.notAfter) == cert.notAfter
  }
}

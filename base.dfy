/** Shared value types: optional values, 64-bit integers, bytes, digests and the
    foreign primitives (text encoding, hashing, the cookie signer) that the
    authorization core calls but does not define. */
module Base {

  datatype Option<+T> = None | Some(value: T) {
    /** `x ?? d` */
    function GetOr(default: T): T {
      match this
      case Some(v) => v
      case None => default
    }
  }

  datatype Result<+T, +E> = Ok(value: T) | Err(error: E)

  const MinLong: int := -0x8000_0000_0000_0000
  const MaxLong: int := 0x7FFF_FFFF_FFFF_FFFF

  /** The values of a C# `long`. */
  type Long = x: int | MinLong <= x <= MaxLong

  /** Unchecked 64-bit subtraction result: `x` reduced into the range of `long`. */
  function Wrap64(x: int): (r: Long)
    ensures (r - x) % 0x1_0000_0000_0000_0000 == 0
    ensures MinLong <= x <= MaxLong ==> r == x
  {
    (x - MinLong) % 0x1_0000_0000_0000_0000 + MinLong
  }

  type byte = x: int | 0 <= x < 256

  /** A SHA-1 digest: exactly 20 bytes. */
  type Digest = d: seq<byte> | |d| == 20 witness seq(20, i => 0)

  /** The cryptographic and encoding calls the core makes, as uninterpreted
      functions: `Encoding.UTF8.GetBytes`, `SHA1.ComputeHash` and
      `MakeSignAuthorization.MakeCookieSign(token, userName, timestampText)`. */
  datatype Primitives = Primitives(
    utf8: string -> seq<byte>,
    sha1: seq<byte> -> Digest,
    cookieSign: (string, string, string) -> string
  )
}

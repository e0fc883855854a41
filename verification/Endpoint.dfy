/** Addresses and ports, as every component sees them. */
module Endpoints {
  type Byte = x: int | 0 <= x < 0x100
  type UInt16 = x: int | 0 <= x < 0x1_0000
  type UInt32 = x: int | 0 <= x < 0x1_0000_0000
  type Address = a: seq<Byte> | |a| == 16 witness seq(16, _ => 0)

  /** An IPv4 address spelled as IPv6. */
  predicate IsMapped(a: Address) {
    a[..10] == [0, 0, 0, 0, 0, 0, 0, 0, 0, 0] && a[10] == 0xff && a[11] == 0xff
  }

  /** An IPv6 address that is not an IPv4 one in disguise. */
  type Address6 = a: Address | !IsMapped(a) witness LOOPBACK

  const LOOPBACK: Address := [0, 0, 0, 0, 0, 0, 0, 0, 0, 0, 0, 0, 0, 0, 0, 1]

  /** No endpoint holds an IPv4 address spelled as IPv6: see `Normalized`. */
  datatype Endpoint = V4(v4: UInt32, port: UInt16) | V6(v6: Address6, port: UInt16)

  datatype Host = Host4(v4: UInt32) | Host6(v6: Address6)

  /** The address without the port, which is what limits are kept by. */
  function HostOf(e: Endpoint): (h: Host) {
    match e case V4(a, _) => Host4(a) case V6(a, _) => Host6(a)
  }

  /** The endpoint made from sixteen bytes: an IPv4 address is taken out of its disguise. */
  function Normalized(a: Address, port: UInt16): (e: Endpoint)
    ensures e.V4? <==> IsMapped(a)
  {
    if IsMapped(a) then
      var b0: int, b1: int, b2: int, b3: int := a[12], a[13], a[14], a[15];
      V4(b0 * 0x100_0000 + b1 * 0x1_0000 + b2 * 0x100 + b3, port)
    else V6(a, port)
  }
}

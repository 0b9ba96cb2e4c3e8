/**
 * src/app/api/network-test/route.ts: reports the client address the proxy
 * headers carry and whether it is private. The timestamp is left out.
 */
module NetworkTest {
  import opened Wrappers
  import opened Js
  import opened Locality

  /** `x-real-ip || x-forwarded-for || "unknown"`. */
  function ClientIp(realIp: Option<string>, forwardedFor: Option<string>): (ip: string)
    ensures Truthy(realIp) ==> ip == realIp.value
    ensures !Truthy(realIp) && Truthy(forwardedFor) ==> ip == forwardedFor.value
    ensures !Truthy(realIp) && !Truthy(forwardedFor) ==> ip == "unknown"
    ensures ip != ""
  {
    OrElse(Or(realIp, forwardedFor), "unknown")
  }

  datatype NetworkReport = NetworkReport(
    success: bool, clientIp: string, isPrivateNetwork: bool, hasWifi: bool, hasEthernet: bool)

  /** `GET /api/network-test`. */
  function Get(realIp: Option<string>, forwardedFor: Option<string>): (r: NetworkReport)
    ensures r.success
    ensures r.clientIp == ClientIp(realIp, forwardedFor)
    ensures r.isPrivateNetwork <==> PrivatePrefixPattern(r.clientIp) || r.clientIp == "127.0.0.1" || r.clientIp == "::1"
    ensures r.hasWifi == r.isPrivateNetwork && r.hasEthernet == r.isPrivateNetwork
    ensures !Truthy(realIp) && !Truthy(forwardedFor) ==> !r.isPrivateNetwork
  {
    var ip := ClientIp(realIp, forwardedFor);
    var isPrivate := IsPrivateIp(ip);
    PrivateIpIff(ip);
    UnknownIsNotPrivate();
    NetworkReport(true, ip, isPrivate, isPrivate, isPrivate)
  }

  /** `HEAD /api/network-test`: always 200, no body. */
  function Head(): (status: nat)
    ensures status == 200
  {
    200
  }
}

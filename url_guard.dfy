/** The SSRF guard that runs before every outbound fetch (feed.py lines 44-132).
    `urlparse`, `socket.getaddrinfo` and the `ipaddress` classification are
    collaborators: their answers are inputs here. */
module UrlGuard {
  import opened Records
  import opened Text

  /** What `urlparse` reports: the scheme and the hostname (`None` when absent). */
  datatype ParsedUrl = ParsedUrl(scheme: string, hostname: Option<string>)

  /** The `ipaddress` flags of one resolved address. */
  datatype IpFlags = IpFlags(loopback: bool, private: bool, linkLocal: bool, unspecified: bool, multicast: bool)

  /** One `getaddrinfo` answer: the address text and its flags, or `None` when
      `ipaddress.ip_address` raised ValueError on it. */
  datatype ResolvedAddress = ResolvedAddress(text: string, ip: Option<IpFlags>)

  /** The outcome of `getaddrinfo`: `socket.gaierror`, or the list of addresses. */
  datatype Resolution = DnsFailure | Resolved(addresses: seq<ResolvedAddress>)

  const MetadataAddress := "169.254.169.254"

  /** `_validate_url_scheme`: only http and https pass. */
  function CheckScheme(url: ParsedUrl): (r: Option<Rejection>)
    ensures r.None? <==> url.scheme in {"http", "https"}
    ensures r.Some? ==> r.value == SchemeNotAllowed(url.scheme)
  {
    if url.scheme == "http" || url.scheme == "https" then None else Some(SchemeNotAllowed(url.scheme))
  }

  /** The host names refused unless localhost access is allowed, compared after lower-casing. */
  predicate IsLocalhostName(host: string) {
    Lower(host) in {"localhost", "127.0.0.1", "::1"}
  }

  /** `_validate_hostname`. */
  function CheckHostname(host: Option<string>, allowLocalhost: bool): (r: Option<Rejection>)
    ensures !Truthy(host) ==> r == Some(NoHostname)
    ensures Truthy(host) ==> (r.Some? <==> !allowLocalhost && IsLocalhostName(host.value))
    ensures r.Some? ==> r.value in {NoHostname, LocalhostName}
  {
    if !Truthy(host) then Some(NoHostname)
    else if !allowLocalhost && IsLocalhostName(host.value) then Some(LocalhostName)
    else None
  }

  /** `_validate_ip_address`: the six checks in their order; the first that fires names the reason. */
  function CheckAddress(ip: IpFlags, text: string, allowLocalhost: bool): (r: Option<Rejection>)
    // private and not loopback, link-local, unspecified, multicast, the metadata address: refused whatever allowLocalhost says
    ensures (ip.private && !ip.loopback) || ip.linkLocal || ip.unspecified || ip.multicast || text == MetadataAddress ==> r.Some?
    // loopback is refused exactly when localhost access is not allowed
    ensures ip.loopback && !ip.linkLocal && !ip.unspecified && !ip.multicast && text != MetadataAddress ==>
              (r.Some? <==> !allowLocalhost)
    // an address with none of the flags, other than the metadata address, passes
    ensures !ip.loopback && !ip.private && !ip.linkLocal && !ip.unspecified && !ip.multicast && text != MetadataAddress ==> r.None?
    ensures r.Some? && !allowLocalhost && ip.loopback ==> r.value == LoopbackAddress(text)
  {
    if !allowLocalhost && ip.loopback then Some(LoopbackAddress(text))
    else if ip.private && !ip.loopback then Some(PrivateAddress(text))
    else if ip.linkLocal then Some(LinkLocalAddress(text))
    else if ip.unspecified then Some(UnspecifiedAddress(text))
    else if ip.multicast then Some(MulticastAddress(text))
    else if text == MetadataAddress then Some(CloudMetadata)
    else None
  }

  /** The verdict on one resolved address; an unparseable address is skipped. */
  function AddressVerdict(a: ResolvedAddress, allowLocalhost: bool): Option<Rejection> {
    if a.ip.None? then None else CheckAddress(a.ip.value, a.text, allowLocalhost)
  }

  /** The loop over the resolved addresses: the first refusal in resolution order, if any. */
  function CheckAddresses(addresses: seq<ResolvedAddress>, allowLocalhost: bool): (r: Option<Rejection>)
    ensures r.None? <==> forall i :: 0 <= i < |addresses| ==> AddressVerdict(addresses[i], allowLocalhost).None?
    ensures r.Some? ==> exists i :: 0 <= i < |addresses| && FirstRefusedAt(addresses, allowLocalhost, i)
                                    && r == AddressVerdict(addresses[i], allowLocalhost)
  {
    if addresses == [] then None
    else
      var v := AddressVerdict(addresses[0], allowLocalhost);
      if v.Some? then
        assert FirstRefusedAt(addresses, allowLocalhost, 0);
        v
      else
        var rest := CheckAddresses(addresses[1..], allowLocalhost);
        if rest.Some? then
          var i :| 0 <= i < |addresses| - 1 && FirstRefusedAt(addresses[1..], allowLocalhost, i)
                   && rest == AddressVerdict(addresses[1..][i], allowLocalhost);
          assert FirstRefusedAt(addresses, allowLocalhost, i + 1);
          rest
        else
          assert forall i :: 1 <= i < |addresses| ==> addresses[i] == addresses[1..][i - 1];
          rest
  }

  /** Address `i` is refused and every address before it passes. */
  predicate FirstRefusedAt(addresses: seq<ResolvedAddress>, allowLocalhost: bool, i: int)
    requires 0 <= i < |addresses|
  {
    && AddressVerdict(addresses[i], allowLocalhost).Some?
    && forall j :: 0 <= j < i ==> AddressVerdict(addresses[j], allowLocalhost).None?
  }

  /** `_validate_feed_url`: `None` when the URL may be fetched, else the reason it is refused.
      `allowLocalhost = None` defers to the testing-mode flag. */
  function ValidateFeedUrl(url: ParsedUrl, dns: Resolution, allowLocalhost: Option<bool>, testingMode: bool): (r: Option<Rejection>)
    // the scheme is checked before anything about the host
    ensures url.scheme !in {"http", "https"} ==> r == Some(SchemeNotAllowed(url.scheme))
    // a DNS failure is never a reason to refuse
    ensures dns.DnsFailure? ==> r == (if CheckScheme(url).Some? then CheckScheme(url)
                                     else CheckHostname(url.hostname, allowLocalhost.GetOr(testingMode)))
    // one refused address among several is enough
    ensures dns.Resolved? && (exists i :: 0 <= i < |dns.addresses| && AddressVerdict(dns.addresses[i], allowLocalhost.GetOr(testingMode)).Some?)
            ==> r.Some?
  {
    var allow := allowLocalhost.GetOr(testingMode);
    if CheckScheme(url).Some? then CheckScheme(url)
    else if CheckHostname(url.hostname, allow).Some? then CheckHostname(url.hostname, allow)
    else if dns.DnsFailure? then None
    else CheckAddresses(dns.addresses, allow)
  }

  /** The refusal policy stated on its own, without the order of the checks. */
  predicate Unsafe(url: ParsedUrl, dns: Resolution, allowLocalhost: bool) {
    || url.scheme !in {"http", "https"}
    || !Truthy(url.hostname)
    || (!allowLocalhost && IsLocalhostName(url.hostname.value))
    || (dns.Resolved? && exists i :: 0 <= i < |dns.addresses| && Refused(dns.addresses[i], allowLocalhost))
  }

  /** The policy for one address, as the guard's docstring and its comments state it. */
  predicate Refused(a: ResolvedAddress, allowLocalhost: bool) {
    a.ip.Some? &&
    var f := a.ip.value;
    (!allowLocalhost && f.loopback) || (f.private && !f.loopback) || f.linkLocal || f.unspecified || f.multicast
    || a.text == MetadataAddress
  }

  /** The guard refuses a URL exactly when the policy calls it unsafe. */
  lemma {:induction false} ValidateMatchesPolicy(url: ParsedUrl, dns: Resolution, allowLocalhost: bool, testingMode: bool)
    ensures ValidateFeedUrl(url, dns, Some(allowLocalhost), testingMode).Some? <==> Unsafe(url, dns, allowLocalhost)
  {
    if dns.Resolved? {
      forall i | 0 <= i < |dns.addresses|
        ensures AddressVerdict(dns.addresses[i], allowLocalhost).Some? <==> Refused(dns.addresses[i], allowLocalhost)
      {
      }
    }
  }

  /** The cases the security tests list: a file URL, a localhost URL, a private and the metadata address are refused. */
  lemma RefusesKnownAttacks(dns: Resolution, testingMode: bool)
    ensures ValidateFeedUrl(ParsedUrl("file", None), dns, Some(false), testingMode).Some?
    ensures ValidateFeedUrl(ParsedUrl("http", Some("localhost")), dns, Some(false), testingMode) == Some(LocalhostName)
    ensures ValidateFeedUrl(ParsedUrl("http", Some("192.168.1.1")),
                            Resolved([ResolvedAddress("192.168.1.1", Some(IpFlags(false, true, false, false, false)))]),
                            Some(false), testingMode) == Some(PrivateAddress("192.168.1.1"))
    ensures ValidateFeedUrl(ParsedUrl("http", Some("169.254.169.254")),
                            Resolved([ResolvedAddress("169.254.169.254", Some(IpFlags(false, true, true, false, false)))]),
                            Some(false), testingMode).Some?
  {
    assert Lower("localhost") == "localhost";
    assert !IsLocalhostName("192.168.1.1") by { assert Lower("192.168.1.1") == "192.168.1.1"; }
    assert !IsLocalhostName("169.254.169.254") by { assert Lower("169.254.169.254") == "169.254.169.254"; }
  }
}

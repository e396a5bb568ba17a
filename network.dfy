/**
 * Network resolution of a VM's IP address against the configured networks
 * (`network_settings`) and the synthesis of a Xen MAC address
 * (`random_mac`), vmscripts/lib/virtual_machine.rb:326-353.
 */
module Network {
  import opened Strings
  import opened Host

  /** The hash `network_settings` returns. */
  datatype NetInfo = NetInfo(ip: string, mac: string, nmask: string, gway: string, dns: seq<string>, linkType: string)

  /** `rand(0xff)` yields 0..254. */
  type RandByte = n: nat | n < 255

  /** The three random octets `random_mac` draws. */
  datatype MacDraw = MacDraw(a: RandByte, b: RandByte, c: RandByte)

  const XenMacPrefix := "00:16:3e:"

  /** The value of the two hex digits of octet `k` (0, 1 or 2) after the Xen prefix. */
  function MacOctet(mac: string, k: nat): nat
    requires k < 3 && |mac| == 17
    requires IsHexDigit(mac[9 + 3 * k]) && IsHexDigit(mac[10 + 3 * k])
  {
    HexValue(mac[9 + 3 * k]) * 16 + HexValue(mac[10 + 3 * k])
  }

  /** `sprintf("00:16:3e:%02x:%02x:%02x", ...)`. */
  function RandomMac(d: MacDraw): (mac: string)
    ensures |mac| == 17 && mac[..9] == XenMacPrefix
    ensures mac[11] == ':' && mac[14] == ':'
    ensures forall k :: 0 <= k < 3 ==> IsHexDigit(mac[9 + 3 * k]) && IsHexDigit(mac[10 + 3 * k])
    ensures MacOctet(mac, 0) == d.a && MacOctet(mac, 1) == d.b && MacOctet(mac, 2) == d.c
  {
    var mac := XenMacPrefix + Hex2(d.a) + ":" + Hex2(d.b) + ":" + Hex2(d.c);
    assert mac[9..11] == Hex2(d.a) && mac[12..14] == Hex2(d.b) && mac[15..17] == Hex2(d.c);
    mac
  }

  /** A synthesised address never uses octet ff, since rand(0xff) stops at 254. */
  lemma RandomMacNeverFF(d: MacDraw, k: nat)
    requires k < 3
    ensures MacOctet(RandomMac(d), k) < 255
  {
  }

  /** `ip_address.split('.')[0..2].join('.')`. */
  function IpPrefix(ip: string): string
  {
    var parts := RubySplit(ip, '.');
    JoinWith(parts[..if |parts| < 3 then |parts| else 3], '.')
  }

  /** `ip_address.split('.')[-1].to_i`, where nil.to_i is 0. */
  function LastOctet(ip: string): int
  {
    var parts := RubySplit(ip, '.');
    if |parts| == 0 then 0 else ToI(parts[|parts| - 1])
  }

  /** For a dotted quad a.b.c.d, the prefix is a.b.c and the last octet d.to_i. */
  lemma DottedQuad(parts: seq<string>)
    requires |parts| == 4 && NoneHas(parts, '.') && parts[3] != ""
    ensures IpPrefix(JoinWith(parts, '.')) == JoinWith(parts[..3], '.')
    ensures LastOctet(JoinWith(parts, '.')) == ToI(parts[3])
  {
    RubySplitJoin(parts, '.');
  }

  /** What `network_settings` promises: the first network whose prefix matches decides. */
  function NetworkFor(nets: seq<NetworkDef>, dns: seq<string>, ip: string, mac: Option<string>, draw: MacDraw): Result<NetInfo>
    decreases |nets|
  {
    if |nets| == 0 then Err(NetworkNotFound)
    else if IpPrefix(ip) == nets[0].network then
      if nets[0].start <= LastOctet(ip) <= nets[0].end then
        var m := match mac case Some(v) => v case None => RandomMac(draw);
        Ok(NetInfo(ip, m, nets[0].nmask, nets[0].gway, dns, nets[0].linkType))
      else Err(AddressOutOfRange)
    else NetworkFor(nets[1..], dns, ip, mac, draw)
  }

  /**
   * `network_settings`: scans NETWORKS in order, returning or raising at the
   * first network whose prefix matches the address.
   */
  method NetworkSettings(cfg: Config, ip: string, mac: Option<string>, draw: MacDraw) returns (r: Result<NetInfo>)
    ensures r == NetworkFor(cfg.networks, cfg.nameservers, ip, mac, draw)
  {
    var ipNetwork := IpPrefix(ip);
    var lastOctet := LastOctet(ip);
    var i := 0;
    while i < |cfg.networks|
      invariant 0 <= i <= |cfg.networks|
      invariant NetworkFor(cfg.networks[i..], cfg.nameservers, ip, mac, draw)
             == NetworkFor(cfg.networks, cfg.nameservers, ip, mac, draw)
    {
      var net := cfg.networks[i];
      assert cfg.networks[i..][1..] == cfg.networks[i + 1..];
      if ipNetwork == net.network {
        if lastOctet >= net.start && lastOctet <= net.end {
          var m := match mac case Some(v) => v case None => RandomMac(draw);
          return Ok(NetInfo(ip, m, net.nmask, net.gway, cfg.nameservers, net.linkType));
        } else {
          return Err(AddressOutOfRange);
        }
      }
      i := i + 1;
    }
    return Err(NetworkNotFound);
  }

  /**
   * The first network whose prefix matches decides alone: inside its bounds
   * the result carries the address, the supplied or synthesised MAC, that
   * network's netmask, gateway and type and the nameservers; outside them
   * the address is rejected without looking at later networks.
   */
  lemma {:induction false} FirstMatchDecides(nets: seq<NetworkDef>, dns: seq<string>, ip: string, mac: Option<string>, draw: MacDraw, k: nat)
    requires k < |nets| && nets[k].network == IpPrefix(ip)
    requires forall j :: 0 <= j < k ==> nets[j].network != IpPrefix(ip)
    ensures nets[k].start <= LastOctet(ip) <= nets[k].end ==>
      NetworkFor(nets, dns, ip, mac, draw)
        == Ok(NetInfo(ip, if mac.Some? then mac.value else RandomMac(draw), nets[k].nmask, nets[k].gway, dns, nets[k].linkType))
    ensures !(nets[k].start <= LastOctet(ip) <= nets[k].end) ==>
      NetworkFor(nets, dns, ip, mac, draw) == Err(AddressOutOfRange)
    decreases k
  {
    if k > 0 {
      FirstMatchDecides(nets[1..], dns, ip, mac, draw, k - 1);
    }
  }

  /** No network's prefix matches: the address is not within any network. */
  lemma {:induction false} NoMatchNotFound(nets: seq<NetworkDef>, dns: seq<string>, ip: string, mac: Option<string>, draw: MacDraw)
    requires forall j :: 0 <= j < |nets| ==> nets[j].network != IpPrefix(ip)
    ensures NetworkFor(nets, dns, ip, mac, draw) == Err(NetworkNotFound)
    decreases |nets|
  {
    if |nets| > 0 {
      NoMatchNotFound(nets[1..], dns, ip, mac, draw);
    }
  }

  /** Conversely, a success comes from a matching network whose bounds admit the last octet. */
  lemma {:induction false} SuccessHasWitness(nets: seq<NetworkDef>, dns: seq<string>, ip: string, mac: Option<string>, draw: MacDraw)
    requires NetworkFor(nets, dns, ip, mac, draw).Ok?
    ensures exists k :: (0 <= k < |nets| && nets[k].network == IpPrefix(ip)
                         && nets[k].start <= LastOctet(ip) <= nets[k].end
                         && NetworkFor(nets, dns, ip, mac, draw).value.nmask == nets[k].nmask
                         && NetworkFor(nets, dns, ip, mac, draw).value.gway == nets[k].gway
                         && NetworkFor(nets, dns, ip, mac, draw).value.linkType == nets[k].linkType)
    ensures NetworkFor(nets, dns, ip, mac, draw).value.ip == ip
    ensures NetworkFor(nets, dns, ip, mac, draw).value.dns == dns
    decreases |nets|
  {
    if IpPrefix(ip) != nets[0].network {
      SuccessHasWitness(nets[1..], dns, ip, mac, draw);
      var k :| 0 <= k < |nets[1..]| && nets[1..][k].network == IpPrefix(ip)
        && nets[1..][k].start <= LastOctet(ip) <= nets[1..][k].end
        && NetworkFor(nets[1..], dns, ip, mac, draw).value.nmask == nets[1..][k].nmask
        && NetworkFor(nets[1..], dns, ip, mac, draw).value.gway == nets[1..][k].gway
        && NetworkFor(nets[1..], dns, ip, mac, draw).value.linkType == nets[1..][k].linkType;
      assert nets[k + 1] == nets[1..][k];
    }
  }
}

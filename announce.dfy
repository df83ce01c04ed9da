/**
 * The record the crawler harvests from an announce_peer query, and
 * `summarize`, which builds it from the query and the UDP source address.
 */
module Announce {
  import opened Wrappers
  import opened Bencode
  import opened Text

  /** A UDP source address and a TCP peer address: the IP bytes and the port. */
  datatype UdpAddr = UdpAddr(ip: seq<byte>, port: int)
  datatype TcpAddr = TcpAddr(ip: seq<byte>, port: int)

  datatype Announcement = Announcement(
    raw: Dict,
    from: UdpAddr,
    peer: TcpAddr,
    infohash: seq<byte>,
    infohashHex: string)

  /**
   * The announced peer's port: the UDP source port, unless `implied_port`
   * is the integer 0 and `port` is an integer, which then wins.
   */
  function PeerPort(a: Dict, from: UdpAddr): (port: int)
    ensures port == from.port || Int(a, "port") == Some(port)
    ensures Int(a, "implied_port") != Some(0) ==> port == from.port
  {
    if Int(a, "implied_port") == Some(0) then
      match Int(a, "port")
      case Some(p) => p
      case None => from.port
    else
      from.port
  }

  /** summarize: None unless `a` is a dictionary holding a string `info_hash`. */
  function Summarize(d: Dict, from: UdpAddr): (ac: Option<Announcement>)
    ensures SubDict(d, "a").None? ==> ac.None?
    ensures ac.Some? ==>
      && ac.value.raw == d && ac.value.from == from
      && ac.value.peer == TcpAddr(from.ip, PeerPort(SubDict(d, "a").value, from))
      && Str(SubDict(d, "a").value, "info_hash") == Some(ac.value.infohash)
      && ac.value.infohashHex == Hex(ac.value.infohash)
  {
    match SubDict(d, "a")
    case None => None
    case Some(a) =>
      match Str(a, "info_hash")
      case None => None
      case Some(infohash) =>
        Some(Announcement(d, from, TcpAddr(from.ip, PeerPort(a, from)), infohash, Hex(infohash)))
  }

  /**
   * What an announcement records: it exists exactly when `a` and
   * `a.info_hash` are well typed; it keeps the raw query, the source, the
   * info hash and its lower-case hex text (twice as long, and reading back as
   * the info hash); the peer is at the source IP.
   */
  lemma SummarizeFields(d: Dict, from: UdpAddr)
    ensures Summarize(d, from).Some? <==> SubDict(d, "a").Some? && Str(SubDict(d, "a").value, "info_hash").Some?
    ensures Summarize(d, from).Some? ==>
      var ac := Summarize(d, from).value;
      && ac.raw == d && ac.from == from && ac.peer.ip == from.ip
      && Str(SubDict(d, "a").value, "info_hash") == Some(ac.infohash)
      && |ac.infohashHex| == 2 * |ac.infohash|
      && Unhex(ac.infohashHex) == Some(ac.infohash)
  {
    if Summarize(d, from).Some? {
      HexRoundTrip(Summarize(d, from).value.infohash);
    }
  }

  /**
   * Port selection: the explicit `port` is used only when `implied_port` is
   * present as the integer 0; in every other case (absent, mis-typed,
   * non-zero, or `port` itself missing) the UDP source port is used.
   */
  lemma SummarizePort(d: Dict, from: UdpAddr)
    requires Summarize(d, from).Some?
    ensures var a := SubDict(d, "a").value;
      Summarize(d, from).value.peer.port ==
        if Int(a, "implied_port") == Some(0) && Int(a, "port").Some? then Int(a, "port").value else from.port
    ensures Int(SubDict(d, "a").value, "implied_port").None? ==> Summarize(d, from).value.peer.port == from.port
  {
  }
}

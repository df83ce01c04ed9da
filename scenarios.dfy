/**
 * End-to-end sequences of handler calls whose outcomes the verifier proves: a get_peers
 * query is answered with a token, the token opens announce_peer, and a
 * reply's nodes meet a limiter with a burst of one, and a rate whose
 * announcement bound overflows Go's `int` stores nothing.
 */
module Scenarios {
  import opened Wrappers
  import opened Bencode
  import opened Text
  import opened Nodes
  import opened Messages
  import opened Announce
  import opened Crawler

  /** The hex text of twenty 0x11 bytes is forty '1' characters. */
  lemma HexOfElevens()
    ensures Hex(seq(20, _ => 0x11)) == seq(40, _ => '1')
  {
    var bs: seq<byte> := seq(20, _ => 0x11);
    forall i | 0 <= i < 40
      ensures Hex(bs)[i] == '1'
    {
      HexAt(bs, i / 2);
    }
  }

  /**
   * A get_peers query whose `a.id` is twenty 0xAA bytes is answered with no
   * nodes and the requester's token; an announce_peer that hands that token
   * back with twenty 0x11 bytes as info hash and no implied_port is stored
   * with the UDP source port and the hex text of the info hash, and signals
   * the consumer.
   */
  method GetPeersThenAnnounce(localID: seq<byte>, secret: seq<byte>, hash: seq<byte> -> seq<byte>, from: UdpAddr)
    requires |localID| == ID_LENGTH
  {
    var g := new Dht(localID, secret, hash, 1);
    var requester: seq<byte> := seq(20, _ => 0xAA);
    var query := MakeQuery([0x61, 0x61], GET_PEERS, map["id" := BStr(requester)]);
    RouteMakeQuery([0x61, 0x61], GET_PEERS, map["id" := BStr(requester)]);
    g.OnMessage(Some(query), from, _ => true);
    GetPeersReplyContents(g, query, from);
    assert |g.sent| == 1;
    var reply := g.sent[0].msg;
    var r := SubDict(reply, "r").value;
    assert Str(r, "nodes") == Some([]);
    assert Str(r, "token") == Some(g.GenToken(from));

    var infohash: seq<byte> := seq(20, _ => 0x11);
    var args := map["info_hash" := BStr(infohash), "token" := BStr(g.GenToken(from)), "port" := BInt(1)];
    var announce := MakeQuery([0x61, 0x62], ANNOUNCE_PEER, args);
    RouteMakeQuery([0x61, 0x62], ANNOUNCE_PEER, args);
    g.OnMessage(Some(announce), from, _ => true);
    assert |g.announcements| == 1;
    assert g.announcements[0].peer.port == from.port;
    HexOfElevens();
    assert g.announcements[0].infohashHex == seq(40, _ => '1');
    assert g.notifierPending;
  }

  /** A reply carrying two well-formed records meets a limiter with a burst of one: one node is discovered. */
  method ReplyWithBurstOfOne(localID: seq<byte>, secret: seq<byte>, hash: seq<byte> -> seq<byte>, from: UdpAddr)
    requires |localID| == ID_LENGTH
  {
    var g := new Dht(localID, secret, hash, 1);
    var records: seq<byte> := seq(2 * RECORD_LENGTH, _ => 7);
    var reply := MakeReply([0x61, 0x61], map["id" := BStr(localID), "nodes" := BStr(records)]);
    RouteMakeReply([0x61, 0x61], map["id" := BStr(localID), "nodes" := BStr(records)]);
    var allow := (i: nat) => i < 1;
    g.OnMessage(Some(reply), from, allow);
    assert ReplyNodes(reply) == CompactNodes(records);
    assert |CompactNodes(records)| == 2;
    AdmittedBurst(CompactNodes(records), allow, 1);
    assert |g.discovered| == 1;
    assert g.discovered[0] == CompactNodes(records)[0];
  }

  /**
   * A rate of 10^18 friends per second: ten times it passes the int range and
   * wraps to 10^19 - 2^64, a negative bound, so no message is ever stored.
   */
  method OverflowingRateStoresNothing(localID: seq<byte>, secret: seq<byte>, hash: seq<byte> -> seq<byte>, d: Dict, from: UdpAddr)
    requires |localID| == ID_LENGTH
  {
    var g := new Dht(localID, secret, hash, 1_000_000_000_000_000_000);
    assert g.maxAnnouncements == 10_000_000_000_000_000_000 - INT_MODULUS < 0;
    g.OnMessage(Some(d), from, _ => true);
    assert g.announcements == [];
  }
}

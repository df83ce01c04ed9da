/**
 * Node ids and the compact node encoding of BEP 5 ("Contact Encoding"): each
 * node is a 26-byte record, a 20-byte id, a 4-byte IPv4 address and a
 * 2-byte big-endian port. The crawler renders each address as the text
 * "a.b.c.d:port" that it later hands to the resolver.
 */
module Nodes {
  import opened Wrappers
  import opened Bencode
  import opened Text

  const ID_LENGTH := 20
  /** How many leading bytes of a target id neighborID keeps. */
  const CLOSENESS := 15
  const RECORD_LENGTH := 26

  /** A crawl target: where to send find_node, and the id it claims. */
  datatype Node = Node(addr: string, id: seq<byte>)

  /** The id neighborID builds: the target's first 15 bytes, then the local id's last 5. */
  function Neighbor(target: seq<byte>, local: seq<byte>): (id: seq<byte>)
    requires |target| >= CLOSENESS && |local| == ID_LENGTH
    ensures |id| == ID_LENGTH
  {
    target[..CLOSENESS] + local[CLOSENESS..]
  }

  /**
   * neighborID: copies the target's prefix and the local id's suffix into a
   * fresh 20-byte buffer. The target must be at least CLOSENESS bytes long
   * for the slice target[:15] to exist.
   */
  method NeighborID(target: seq<byte>, local: seq<byte>) returns (id: seq<byte>)
    requires |target| >= CLOSENESS && |local| == ID_LENGTH
    ensures |id| == ID_LENGTH
    ensures id[..CLOSENESS] == target[..CLOSENESS]
    ensures id[CLOSENESS..] == local[CLOSENESS..]
    ensures id == Neighbor(target, local)
  {
    var buf := new byte[ID_LENGTH];
    // the target's first CLOSENESS bytes
    var i := 0;
    while i < CLOSENESS
      invariant 0 <= i <= CLOSENESS
      invariant buf[..i] == target[..i]
    {
      buf[i] := target[i];
      i := i + 1;
    }
    // the local id's remaining bytes
    while i < ID_LENGTH
      invariant CLOSENESS <= i <= ID_LENGTH
      invariant buf[..CLOSENESS] == target[..CLOSENESS]
      invariant buf[CLOSENESS..i] == local[CLOSENESS..i]
    {
      buf[i] := local[i];
      i := i + 1;
    }
    id := buf[..];
    assert id[CLOSENESS..] == buf[CLOSENESS..ID_LENGTH];
    assert id == id[..CLOSENESS] + id[CLOSENESS..];
  }

  /** net.IP.String of a 4-byte address: dotted decimal. */
  function IPv4String(ip: seq<byte>): (text: string)
    requires |ip| == 4
    ensures |text| >= 7 && IsDigit(text[0]) && IsDigit(text[|text| - 1])
  {
    Decimal(ip[0]) + "." + Decimal(ip[1]) + "." + Decimal(ip[2]) + "." + Decimal(ip[3])
  }

  /** The address text decodeNodes stores: the dotted address, a colon, the decimal port. */
  function Address(ip: seq<byte>, port: nat): (text: string)
    requires |ip| == 4
  {
    IPv4String(ip) + ":" + Decimal(port)
  }

  /** binary.BigEndian.Uint16. */
  function BigEndianUint16(b: seq<byte>): (v: nat)
    requires |b| == 2
    ensures v < 0x1_0000
  {
    b[0] as int * 256 + b[1] as int
  }

  /** Reads a number followed by the separator `sep`. */
  function ReadField(s: string, sep: char): (r: Option<(nat, string)>) {
    match ReadNumber(s)
    case None => None
    case Some((n, rest)) => if |rest| > 0 && rest[0] == sep then Some((n, rest[1..])) else None
  }

  /** Reads "a.b.c.d:port" back into the address bytes and the port; the left inverse of Address. */
  function ParseAddress(s: string): (r: Option<(seq<byte>, nat)>) {
    var f0 :- ReadField(s, '.');
    var f1 :- ReadField(f0.1, '.');
    var f2 :- ReadField(f1.1, '.');
    var f3 :- ReadField(f2.1, ':');
    var p :- ReadNumber(f3.1);
    if f0.0 < 256 && f1.0 < 256 && f2.0 < 256 && f3.0 < 256 && p.1 == [] then
      Some(([f0.0, f1.0, f2.0, f3.0], p.0))
    else
      None
  }

  lemma ReadFieldDecimal(n: nat, sep: char, rest: string)
    requires !IsDigit(sep)
    ensures ReadField(Decimal(n) + [sep] + rest, sep) == Some((n, rest))
  {
    assert Decimal(n) + [sep] + rest == Decimal(n) + ([sep] + rest);
    ReadDecimal(n, [sep] + rest);
  }

  /** ParseAddress succeeds when its five fields read one after another. */
  lemma ParseAddressFields(s: string, s1: string, s2: string, s3: string, sp: string, ip: seq<byte>, port: nat)
    requires |ip| == 4
    requires ReadField(s, '.') == Some((ip[0] as nat, s1))
    requires ReadField(s1, '.') == Some((ip[1] as nat, s2))
    requires ReadField(s2, '.') == Some((ip[2] as nat, s3))
    requires ReadField(s3, ':') == Some((ip[3] as nat, sp))
    requires ReadNumber(sp) == Some((port, []))
    ensures ParseAddress(s) == Some((ip, port))
  {
    assert [ip[0], ip[1], ip[2], ip[3]] == ip;
  }

  /** The rendered address text determines the address bytes and the port. */
  lemma AddressRoundTrip(ip: seq<byte>, port: nat)
    requires |ip| == 4
    ensures ParseAddress(Address(ip, port)) == Some((ip, port))
  {
    var d0, d1, d2, d3, dp := Decimal(ip[0]), Decimal(ip[1]), Decimal(ip[2]), Decimal(ip[3]), Decimal(port);
    var s3 := d3 + ":" + dp;
    var s2 := d2 + "." + s3;
    var s1 := d1 + "." + s2;
    assert Address(ip, port) == d0 + "." + s1;
    ReadFieldDecimal(ip[0], '.', s1);
    ReadFieldDecimal(ip[1], '.', s2);
    ReadFieldDecimal(ip[2], '.', s3);
    ReadFieldDecimal(ip[3], ':', dp);
    ReadDecimal(port, []);
    assert dp + [] == dp;
    ParseAddressFields(Address(ip, port), s1, s2, s3, dp, ip, port);
  }

  /** The node that record k of a compact node list stands for. */
  function NodeAt(s: seq<byte>, k: nat): (node: Node)
    requires RECORD_LENGTH * k + RECORD_LENGTH <= |s|
  {
    var i := RECORD_LENGTH * k;
    Node(Address(s[i + 20..i + 24], BigEndianUint16(s[i + 24..i + 26])), s[i..i + 20])
  }

  /** The nodes a compact node list encodes, in order; nothing at all unless the length is a multiple of 26. */
  function CompactNodes(s: seq<byte>): (nodes: seq<Node>)
    ensures forall k :: 0 <= k < |nodes| ==> |nodes[k].id| == ID_LENGTH
  {
    if |s| % RECORD_LENGTH != 0 then []
    else seq(|s| / RECORD_LENGTH, k requires 0 <= k < |s| / RECORD_LENGTH => NodeAt(s, k))
  }

  /** decodeNodes: walks the records 26 bytes at a time. */
  method DecodeNodes(s: seq<byte>) returns (nodes: seq<Node>)
    ensures |s| % RECORD_LENGTH != 0 ==> nodes == []
    ensures |s| % RECORD_LENGTH == 0 ==> |nodes| == |s| / RECORD_LENGTH
    ensures forall k :: 0 <= k < |nodes| ==> RECORD_LENGTH * k + RECORD_LENGTH <= |s| && nodes[k] == NodeAt(s, k)
    ensures nodes == CompactNodes(s)
  {
    nodes := [];
    var length := |s|;
    if length % RECORD_LENGTH != 0 {
      return;
    }
    var count := length / RECORD_LENGTH;
    assert length == RECORD_LENGTH * count;
    var i := 0;
    while i < length
      invariant i == RECORD_LENGTH * |nodes| && |nodes| <= count
      invariant forall k :: 0 <= k < |nodes| ==> RECORD_LENGTH * k + RECORD_LENGTH <= |s| && nodes[k] == NodeAt(s, k)
    {
      var id := s[i..i + 20];
      var ip := IPv4String(s[i + 20..i + 24]);
      var port := BigEndianUint16(s[i + 24..i + 26]);
      var addr := ip + ":" + Decimal(port);
      assert Node(addr, id) == NodeAt(s, |nodes|);
      nodes := nodes + [Node(addr, id)];
      i := i + RECORD_LENGTH;
    }
    assert |nodes| == count;
  }

  /**
   * Record k of a well-formed list yields node k: its id is bytes 26k..26k+20,
   * and its address text reads back as bytes 26k+20..26k+24 with the
   * big-endian port of bytes 26k+24 and 26k+25.
   */
  lemma CompactNodeFields(s: seq<byte>, k: nat)
    requires |s| % RECORD_LENGTH == 0 && k < |s| / RECORD_LENGTH
    ensures |CompactNodes(s)| == |s| / RECORD_LENGTH
    ensures CompactNodes(s)[k].id == s[RECORD_LENGTH * k..RECORD_LENGTH * k + 20]
    ensures ParseAddress(CompactNodes(s)[k].addr)
         == Some((s[RECORD_LENGTH * k + 20..RECORD_LENGTH * k + 24], 256 * (s[RECORD_LENGTH * k + 24] as int) + s[RECORD_LENGTH * k + 25] as int))
  {
    var i := RECORD_LENGTH * k;
    assert i + RECORD_LENGTH <= |s|;
    var n := NodeAt(s, k);
    assert CompactNodes(s)[k] == n;
    var ip, port := s[i + 20..i + 24], BigEndianUint16(s[i + 24..i + 26]);
    assert port == 256 * (s[i + 24] as int) + s[i + 25] as int;
    assert n.addr == Address(ip, port);
    AddressRoundTrip(ip, port);
  }
}

/**
 * The crawler's state and its message handlers, taken apart from the UDP
 * socket and the goroutines. What the source sends on the socket, pushes
 * on the discovery channel and appends to the announcement list is kept in
 * sequence fields that the handlers extend.
 */
module Crawler {
  import opened Wrappers
  import opened Bencode
  import opened Text
  import opened Nodes
  import opened Messages
  import opened Announce

  /** A message handed to send, with its destination. */
  datatype Datagram = Datagram(msg: Dict, to: UdpAddr)

  /** The announcement list holds ten entries per friend admitted each second. */
  const ANNOUNCEMENTS_PER_FRIEND := 10

  /** The bounds of Go's `int` on a 64-bit platform. */
  const INT_MIN := -0x8000_0000_0000_0000
  const INT_MODULUS := 0x1_0000_0000_0000_0000

  /**
   * A product as Go's `int` arithmetic yields it: the value in the int range
   * that is congruent to `x` modulo 2^64, and `x` itself when it fits.
   */
  function GoInt(x: int): (w: int)
    ensures INT_MIN <= w < INT_MIN + INT_MODULUS
    ensures (x - w) % INT_MODULUS == 0
    ensures INT_MIN <= x < INT_MIN + INT_MODULUS ==> w == x
  {
    (x - INT_MIN) % INT_MODULUS + INT_MIN
  }

  function Outgoing(msg: Option<Dict>, to: UdpAddr): (out: seq<Datagram>) {
    match msg
    case None => []
    case Some(m) => [Datagram(m, to)]
  }

  function Stored(ac: Option<Announcement>): (added: seq<Announcement>) {
    match ac
    case None => []
    case Some(a) => [a]
  }

  /**
   * The nodes of one reply that get past the rate limiter, in order:
   * `allow(i)` is the answer of the limiter's Allow() for the i-th node.
   */
  function Admitted(nodes: seq<Node>, allow: nat -> bool): (r: seq<Node>)
    ensures |r| <= |nodes|
  {
    if nodes == [] then []
    else Admitted(nodes[..|nodes| - 1], allow) + (if allow(|nodes| - 1) then [nodes[|nodes| - 1]] else [])
  }

  /** One more position of the list: the filter grows by that node exactly when the limiter allows it. */
  lemma AdmittedStep(nodes: seq<Node>, allow: nat -> bool, i: nat)
    requires i < |nodes|
    ensures Admitted(nodes[..i + 1], allow) == Admitted(nodes[..i], allow) + (if allow(i) then [nodes[i]] else [])
  {
    assert nodes[..i + 1][..i] == nodes[..i];
  }

  class Dht {
    const localID: seq<byte>
    const secret: seq<byte>
    /** The one-way hash behind tokens (SHA-1 in the source). */
    const hash: seq<byte> -> seq<byte>
    const maxAnnouncements: int

    /** The announcement list, oldest first. */
    var announcements: seq<Announcement>
    /** Whether announcementNotifier, a channel of capacity 1, holds a signal. */
    var notifierPending: bool
    /** The nodes pushed on chNode, in order. */
    var discovered: seq<Node>
    /** The messages written to the socket, in order. */
    var sent: seq<Datagram>

    /** The bound on the announcement list; a negative limit admits nothing. */
    function Capacity(): (c: nat) {
      if maxAnnouncements < 0 then 0 else maxAnnouncements
    }

    ghost predicate Valid()
      reads this
    {
      |localID| == ID_LENGTH && |announcements| <= Capacity()
    }

    /**
     * newDHT, with the random local id and secret given as parameters. A
     * rate of zero friends per second makes the limiter's event interval a
     * division by zero, so newDHT never returns for it. The bound is the
     * product of the rate and ten in Go's `int`, which wraps to a negative
     * bound (admitting nothing) once the product passes the int range.
     */
    constructor (localID: seq<byte>, secret: seq<byte>, hash: seq<byte> -> seq<byte>, maxFriendsPerSec: int)
      requires |localID| == ID_LENGTH
      requires maxFriendsPerSec != 0
      ensures Valid()
      ensures this.localID == localID && this.secret == secret && this.hash == hash
      ensures maxAnnouncements == GoInt(maxFriendsPerSec * ANNOUNCEMENTS_PER_FRIEND)
      ensures announcements == [] && !notifierPending && discovered == [] && sent == []
    {
      this.localID := localID;
      this.secret := secret;
      this.hash := hash;
      maxAnnouncements := GoInt(maxFriendsPerSec * ANNOUNCEMENTS_PER_FRIEND);
      announcements := [];
      notifierPending := false;
      discovered := [];
      sent := [];
    }

    /** genToken: the hash of the source IP followed by the secret. */
    function GenToken(from: UdpAddr): (token: seq<byte>) {
      hash(from.ip + secret)
    }

    predicate ValidateToken(token: seq<byte>, from: UdpAddr) {
      token == GenToken(from)
    }

    /** The reply onGetPeersQuery sends, if any. */
    function GetPeersReply(d: Dict, from: UdpAddr): (reply: Option<Dict>)
      requires |localID| == ID_LENGTH && Str(d, "t").Some?
    {
      match SubDict(d, "a")
      case None => None
      case Some(a) =>
        match Str(a, "id")
        case None => None
        case Some(id) =>
          if |id| < CLOSENESS then None
          else
            Some(MakeReply(Str(d, "t").value,
              map["id" := BStr(Neighbor(id, localID)), "nodes" := BStr([]), "token" := BStr(GenToken(from))]))
    }

    /** The announcement onAnnouncePeerQuery stores when the list holds `count` entries, if any. */
    function AcceptAnnounce(count: int, d: Dict, from: UdpAddr): (ac: Option<Announcement>) {
      if count >= maxAnnouncements then None
      else
        match SubDict(d, "a")
        case None => None
        case Some(a) =>
          match Str(a, "token")
          case None => None
          case Some(token) => if ValidateToken(token, from) then Summarize(d, from) else None
    }

    /** The find_node query findNode builds. */
    function FindNodeQuery(target: seq<byte>, tid: seq<byte>, randomTarget: seq<byte>): (m: Dict)
      requires |localID| == ID_LENGTH && |target| >= CLOSENESS
    {
      MakeQuery(tid, FIND_NODE, map["id" := BStr(Neighbor(target, localID)), "target" := BStr(randomTarget)])
    }

    /** send: the encoding and the socket write are not modelled. */
    method Send(msg: Dict, to: UdpAddr)
      modifies this`sent
      ensures sent == old(sent) + [Datagram(msg, to)]
    {
      sent := sent + [Datagram(msg, to)];
    }

    /**
     * onMessage, given the result of decoding the datagram (None when the
     * bencode decoder fails). Each path changes only its own part of the
     * state; an ignored message changes nothing.
     */
    method OnMessage(decoded: Option<Dict>, from: UdpAddr, allow: nat -> bool)
      requires Valid()
      modifies this
      ensures Valid()
      ensures RouteOf(decoded) == Ignore ==> unchanged(this)
      ensures RouteOf(decoded) == Reply ==>
        discovered == old(discovered) + Admitted(ReplyNodes(decoded.value), allow)
      ensures RouteOf(decoded) != Reply ==> discovered == old(discovered)
      ensures RouteOf(decoded) == Query(GetPeersQuery) ==>
        sent == old(sent) + Outgoing(GetPeersReply(decoded.value, from), from)
      ensures RouteOf(decoded) != Query(GetPeersQuery) ==> sent == old(sent)
      ensures RouteOf(decoded) == Query(AnnouncePeerQuery) ==>
        var ac := AcceptAnnounce(|old(announcements)|, decoded.value, from);
        announcements == old(announcements) + Stored(ac) && notifierPending == (old(notifierPending) || ac.Some?)
      ensures RouteOf(decoded) != Query(AnnouncePeerQuery) ==>
        announcements == old(announcements) && notifierPending == old(notifierPending)
    {
      if decoded.None? {
        return;
      }
      var dict := decoded.value;
      var y := Str(dict, "y");
      if y.None? {
        return;
      }
      if y.value == Y_QUERY {
        OnQuery(dict, from);
      } else if y.value == Y_REPLY || y.value == Y_ERROR {
        OnReply(dict, allow);
      }
    }

    /** onQuery: dispatches through queryTypes when `t` and `q` are strings. */
    method OnQuery(d: Dict, from: UdpAddr)
      requires Valid()
      modifies this`sent, this`announcements, this`notifierPending
      ensures Valid()
      ensures QueryRoute(d) == Query(GetPeersQuery) ==> sent == old(sent) + Outgoing(GetPeersReply(d, from), from)
      ensures QueryRoute(d) != Query(GetPeersQuery) ==> sent == old(sent)
      ensures QueryRoute(d) == Query(AnnouncePeerQuery) ==>
        var ac := AcceptAnnounce(|old(announcements)|, d, from);
        announcements == old(announcements) + Stored(ac) && notifierPending == (old(notifierPending) || ac.Some?)
      ensures QueryRoute(d) != Query(AnnouncePeerQuery) ==>
        announcements == old(announcements) && notifierPending == old(notifierPending)
    {
      if Str(d, "t").None? {
        return;
      }
      var q := Str(d, "q");
      if q.None? {
        return;
      }
      if q.value in QUERY_TYPES {
        match QUERY_TYPES[q.value]
        case GetPeersQuery => OnGetPeersQuery(d, from);
        case AnnouncePeerQuery => OnAnnouncePeerQuery(d, from);
      }
    }

    /** onReply: every decoded node the limiter allows goes on chNode, in order. */
    method OnReply(d: Dict, allow: nat -> bool)
      modifies this`discovered
      ensures discovered == old(discovered) + Admitted(ReplyNodes(d), allow)
    {
      var r := SubDict(d, "r");
      if r.None? {
        return;
      }
      var nodesText := Str(r.value, "nodes");
      if nodesText.None? {
        return;
      }
      var nodes := DecodeNodes(nodesText.value);
      assert nodes == ReplyNodes(d);
      var i := 0;
      while i < |nodes|
        invariant 0 <= i <= |nodes|
        invariant discovered == old(discovered) + Admitted(nodes[..i], allow)
      {
        AdmittedStep(nodes, allow, i);
        if allow(i) {
          discovered := discovered + [nodes[i]];
        }
        i := i + 1;
      }
      assert nodes[..|nodes|] == nodes;
    }

    /**
     * onGetPeersQuery: answers with a neighbour id, no nodes and the
     * requester's token. Only reached from onQuery, which has checked `t`.
     */
    method OnGetPeersQuery(d: Dict, from: UdpAddr)
      requires Valid() && Str(d, "t").Some?
      modifies this`sent
      ensures sent == old(sent) + Outgoing(GetPeersReply(d, from), from)
    {
      var tid := Str(d, "t").value;
      var a := SubDict(d, "a");
      if a.None? {
        return;
      }
      var id := Str(a.value, "id");
      if id.None? || |id.value| < CLOSENESS {
        return;
      }
      var nid := NeighborID(id.value, localID);
      var reply := MakeReply(tid, map["id" := BStr(nid), "nodes" := BStr([]), "token" := BStr(GenToken(from))]);
      Send(reply, from);
    }

    /**
     * onAnnouncePeerQuery: refuses when the list is full or the token does
     * not validate; otherwise pushes the summarized announcement at the back
     * and signals the notifier without blocking (a pending signal absorbs it).
     */
    method OnAnnouncePeerQuery(d: Dict, from: UdpAddr)
      requires Valid()
      modifies this`announcements, this`notifierPending
      ensures Valid()
      ensures announcements == old(announcements) + Stored(AcceptAnnounce(|old(announcements)|, d, from))
      ensures notifierPending == (old(notifierPending) || AcceptAnnounce(|old(announcements)|, d, from).Some?)
    {
      if |announcements| >= maxAnnouncements {
        return;
      }
      var a := SubDict(d, "a");
      if a.None? {
        return;
      }
      var token := Str(a.value, "token");
      if token.None? || !ValidateToken(token.value, from) {
        return;
      }
      var ac := Summarize(d, from);
      if ac.Some? {
        announcements := announcements + [ac.value];
        // signal without blocking; a signal already pending absorbs this one
        if !notifierPending {
          notifierPending := true;
        }
      }
    }

    /**
     * findNode: `tid` and `randomTarget` stand for the random bytes, and
     * `resolved` for the result of resolving the node's address (None when
     * resolution fails, and nothing is sent).
     */
    method FindNode(target: seq<byte>, tid: seq<byte>, randomTarget: seq<byte>, resolved: Option<UdpAddr>)
      requires Valid() && |target| >= CLOSENESS
      modifies this`sent
      ensures resolved.None? ==> sent == old(sent)
      ensures resolved.Some? ==> sent == old(sent) + [Datagram(FindNodeQuery(target, tid, randomTarget), resolved.value)]
    {
      var nid := NeighborID(target, localID);
      var d := MakeQuery(tid, FIND_NODE, map["id" := BStr(nid), "target" := BStr(randomTarget)]);
      if resolved.None? {
        return;
      }
      Send(d, resolved.value);
    }
  }

  /** A node passes the limiter exactly when it stands at a position the limiter allows. */
  lemma {:induction false} AdmittedMembers(nodes: seq<Node>, allow: nat -> bool, x: Node)
    ensures x in Admitted(nodes, allow) <==> exists i :: 0 <= i < |nodes| && allow(i) && nodes[i] == x
  {
    if nodes != [] {
      var n := |nodes| - 1;
      var before := nodes[..n];
      AdmittedMembers(before, allow, x);
      if x in Admitted(nodes, allow) && x in Admitted(before, allow) {
        var i :| 0 <= i < n && allow(i) && before[i] == x;
        assert nodes[i] == x;
      }
      if exists i :: 0 <= i < |nodes| && allow(i) && nodes[i] == x {
        var i :| 0 <= i < |nodes| && allow(i) && nodes[i] == x;
        if i < n {
          assert before[i] == x;
        }
      }
    }
  }

  /**
   * The limiter keeps the order of the list: filtering a concatenation is
   * filtering the front, then the back with the limiter's answers shifted.
   */
  lemma {:induction false} AdmittedAppend(front: seq<Node>, back: seq<Node>, allow: nat -> bool)
    ensures Admitted(front + back, allow) == Admitted(front, allow) + Admitted(back, (j: nat) => allow(|front| + j))
  {
    if back == [] {
      assert front + back == front;
    } else {
      var n := |back| - 1;
      assert (front + back)[..|front + back| - 1] == front + back[..n];
      AdmittedAppend(front, back[..n], allow);
    }
  }

  /** A limiter with a burst of b, asked at one instant, lets exactly the first b nodes through. */
  lemma {:induction false} AdmittedBurst(nodes: seq<Node>, allow: nat -> bool, b: nat)
    requires forall i: nat :: allow(i) == (i < b)
    ensures Admitted(nodes, allow) == nodes[..if b < |nodes| then b else |nodes|]
  {
    if nodes != [] {
      var n := |nodes| - 1;
      AdmittedBurst(nodes[..n], allow, b);
      if n < b {
        assert nodes[..n] + [nodes[n]] == nodes;
      } else {
        assert nodes[..n][..b] == nodes[..b];
      }
    }
  }

  /** validateToken accepts what genToken issues, for every source. */
  lemma TokenRoundTrip(g: Dht, from: UdpAddr)
    ensures g.ValidateToken(g.GenToken(from), from)
  {
  }

  /** A token is bound to the source IP only, not to its port. */
  lemma TokenIgnoresPort(g: Dht, from: UdpAddr, port: int)
    ensures g.GenToken(UdpAddr(from.ip, port)) == g.GenToken(from)
  {
  }

  /**
   * onGetPeersQuery answers exactly the queries whose `a.id` is a string of
   * at least 15 bytes; the answer is a reply echoing `t`, with no nodes, a
   * token that validates for the requester, and an id that shares the
   * requester's first 15 bytes and the local id's last 5.
   */
  lemma GetPeersReplyContents(g: Dht, d: Dict, from: UdpAddr)
    requires |g.localID| == ID_LENGTH && Str(d, "t").Some?
    ensures g.GetPeersReply(d, from).Some? <==>
      SubDict(d, "a").Some? && Str(SubDict(d, "a").value, "id").Some?
      && |Str(SubDict(d, "a").value, "id").value| >= CLOSENESS
    ensures g.GetPeersReply(d, from).Some? ==>
      var m := g.GetPeersReply(d, from).value;
      var requester := Str(SubDict(d, "a").value, "id").value;
      && Route(m) == Reply && Str(m, "t") == Str(d, "t")
      && SubDict(m, "r").Some?
      && var r := SubDict(m, "r").value;
      && Str(r, "nodes") == Some([]) && ReplyNodes(m) == []
      && Str(r, "token").Some? && g.ValidateToken(Str(r, "token").value, from)
      && Str(r, "id").Some? && |Str(r, "id").value| == ID_LENGTH
      && Str(r, "id").value[..CLOSENESS] == requester[..CLOSENESS]
      && Str(r, "id").value[CLOSENESS..] == g.localID[CLOSENESS..]
  {
    if g.GetPeersReply(d, from).Some? {
      var requester := Str(SubDict(d, "a").value, "id").value;
      var id := Neighbor(requester, g.localID);
      assert id[..CLOSENESS] == requester[..CLOSENESS];
      assert id[CLOSENESS..] == g.localID[CLOSENESS..];
      assert CompactNodes([]) == [];
    }
  }

  /**
   * The announce gate in both directions: an announcement is accepted
   * exactly when the list is below its bound, `a` is a dictionary, `a.token`
   * is the string genToken gives the source, and `a.info_hash` is a string;
   * what is stored is then the summary of the query.
   */
  lemma AcceptAnnounceCases(g: Dht, count: int, d: Dict, from: UdpAddr)
    ensures g.AcceptAnnounce(count, d, from).Some? <==>
      && count < g.maxAnnouncements
      && SubDict(d, "a").Some?
      && Str(SubDict(d, "a").value, "token") == Some(g.GenToken(from))
      && Str(SubDict(d, "a").value, "info_hash").Some?
    ensures g.AcceptAnnounce(count, d, from).Some? ==> g.AcceptAnnounce(count, d, from) == Summarize(d, from)
  {
    SummarizeFields(d, from);
  }

  /** Accepting keeps the list within its bound, and a full list accepts nothing. */
  lemma AcceptAnnounceBound(g: Dht, count: nat, d: Dict, from: UdpAddr)
    requires count <= g.Capacity()
    ensures count + |Stored(g.AcceptAnnounce(count, d, from))| <= g.Capacity()
    ensures count == g.Capacity() ==> g.AcceptAnnounce(count, d, from).None?
  {
  }

  /**
   * A token handed out in a get_peers reply opens the announce gate for any
   * later announce_peer from the same IP, whatever its port, as long as the
   * list has room and the query names an info hash.
   */
  lemma IssuedTokenAccepted(g: Dht, q: Dict, from: UdpAddr, d: Dict, source: UdpAddr, count: int)
    requires |g.localID| == ID_LENGTH && Str(q, "t").Some? && g.GetPeersReply(q, from).Some?
    requires source.ip == from.ip && count < g.maxAnnouncements
    requires SubDict(d, "a").Some? && Str(SubDict(d, "a").value, "info_hash").Some?
    requires Str(SubDict(d, "a").value, "token") == Str(SubDict(g.GetPeersReply(q, from).value, "r").value, "token")
    ensures g.AcceptAnnounce(count, d, source).Some?
    ensures g.AcceptAnnounce(count, d, source) == Summarize(d, source)
  {
    GetPeersReplyContents(g, q, from);
    TokenIgnoresPort(g, from, source.port);
    AcceptAnnounceCases(g, count, d, source);
  }

  /**
   * The find_node query the crawler sends claims an id next to the target's
   * and is one that its own dispatcher would ignore.
   */
  lemma FindNodeQueryShape(g: Dht, target: seq<byte>, tid: seq<byte>, randomTarget: seq<byte>)
    requires |g.localID| == ID_LENGTH && |target| >= CLOSENESS
    ensures var m := g.FindNodeQuery(target, tid, randomTarget);
      && Str(m, "t") == Some(tid) && Str(m, "q") == Some(FIND_NODE) && Route(m) == Ignore
      && SubDict(m, "a").Some?
      && Str(SubDict(m, "a").value, "target") == Some(randomTarget)
      && var id := Str(SubDict(m, "a").value, "id").value;
      && |id| == ID_LENGTH && id[..CLOSENESS] == target[..CLOSENESS] && id[CLOSENESS..] == g.localID[CLOSENESS..]
  {
    var a := map["id" := BStr(Neighbor(target, g.localID)), "target" := BStr(randomTarget)];
    RouteMakeQuery(tid, FIND_NODE, a);
    var id := Neighbor(target, g.localID);
    assert id[..CLOSENESS] == target[..CLOSENESS];
    assert id[CLOSENESS..] == g.localID[CLOSENESS..];
  }
}

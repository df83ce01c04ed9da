/**
 * The KRPC envelope of BEP 5 as the crawler builds and classifies it:
 * `t` is the transaction id, `y` the message class ("q" query, "r" reply,
 * "e" error), `q`/`a` a query's name and arguments, `r` a reply's values.
 */
module Messages {
  import opened Wrappers
  import opened Bencode
  import opened Nodes

  const Y_QUERY: seq<byte> := [0x71]  // "q"
  const Y_REPLY: seq<byte> := [0x72]  // "r"
  const Y_ERROR: seq<byte> := [0x65]  // "e"

  const GET_PEERS: seq<byte> := [0x67, 0x65, 0x74, 0x5f, 0x70, 0x65, 0x65, 0x72, 0x73]  // "get_peers"
  const ANNOUNCE_PEER: seq<byte> := [0x61, 0x6e, 0x6e, 0x6f, 0x75, 0x6e, 0x63, 0x65, 0x5f, 0x70, 0x65, 0x65, 0x72]  // "announce_peer"
  const FIND_NODE: seq<byte> := [0x66, 0x69, 0x6e, 0x64, 0x5f, 0x6e, 0x6f, 0x64, 0x65]  // "find_node"

  /** The queries the crawler answers. */
  datatype QueryKind = GetPeersQuery | AnnouncePeerQuery

  /** queryTypes: query name to handler. */
  const QUERY_TYPES: map<seq<byte>, QueryKind> := map[GET_PEERS := GetPeersQuery, ANNOUNCE_PEER := AnnouncePeerQuery]

  /** The path the dispatcher sends a decoded message down. */
  datatype Path = Ignore | Query(kind: QueryKind) | Reply

  /** makeQuery: the fields read back through the type assertions the dispatcher uses. */
  function MakeQuery(tid: seq<byte>, q: seq<byte>, a: Dict): (m: Dict)
    ensures Str(m, "t") == Some(tid) && Str(m, "y") == Some(Y_QUERY) && Str(m, "q") == Some(q)
    ensures SubDict(m, "a") == Some(a) && SubDict(m, "r").None?
  {
    map["t" := BStr(tid), "y" := BStr(Y_QUERY), "q" := BStr(q), "a" := BDict(a)]
  }

  /** makeReply: the fields read back through the type assertions the dispatcher uses. */
  function MakeReply(tid: seq<byte>, r: Dict): (m: Dict)
    ensures Str(m, "t") == Some(tid) && Str(m, "y") == Some(Y_REPLY)
    ensures SubDict(m, "r") == Some(r) && Str(m, "q").None?
  {
    map["t" := BStr(tid), "y" := BStr(Y_REPLY), "r" := BDict(r)]
  }

  /** onQuery's decision: `t` and `q` must be strings and `q` a name in queryTypes. */
  function QueryRoute(d: Dict): (route: Path)
    ensures route != Reply
    ensures route.Query? ==>
      && Str(d, "t").Some? && Str(d, "q").Some?
      && Str(d, "q").value in QUERY_TYPES && QUERY_TYPES[Str(d, "q").value] == route.kind
  {
    if Str(d, "t").None? then Ignore
    else match Str(d, "q")
      case None => Ignore
      case Some(q) => if q in QUERY_TYPES then Query(QUERY_TYPES[q]) else Ignore
  }

  /** onMessage's decision on the class `y`. */
  function Route(d: Dict): (path: Path)
    ensures path.Query? ==> Str(d, "y") == Some(Y_QUERY) && QueryRoute(d) == path
    ensures path == Reply ==> Str(d, "y") == Some(Y_REPLY) || Str(d, "y") == Some(Y_ERROR)
  {
    match Str(d, "y")
    case None => Ignore
    case Some(y) =>
      if y == Y_QUERY then QueryRoute(d)
      else if y == Y_REPLY || y == Y_ERROR then Reply
      else Ignore
  }

  /** A datagram that failed to decode is dropped. */
  function RouteOf(decoded: Option<Dict>): (path: Path) {
    match decoded
    case None => Ignore
    case Some(d) => Route(d)
  }

  /**
   * The dispatch rule in both directions: a message is handled as a query
   * of kind k exactly when `y` is "q", `t` is a string and `q` names k; as
   * a reply exactly when `y` is "r" or "e"; every other message is ignored.
   */
  lemma RouteCases(d: Dict, k: QueryKind)
    ensures Route(d) == Query(k) <==>
      && Str(d, "y") == Some(Y_QUERY) && Str(d, "t").Some?
      && Str(d, "q").Some? && Str(d, "q").value in QUERY_TYPES && QUERY_TYPES[Str(d, "q").value] == k
    ensures Route(d) == Reply <==> Str(d, "y") == Some(Y_REPLY) || Str(d, "y") == Some(Y_ERROR)
  {
  }

  /** Only get_peers and announce_peer have handlers. */
  lemma QueryTypesNames(q: seq<byte>)
    ensures q in QUERY_TYPES <==> q == GET_PEERS || q == ANNOUNCE_PEER
    ensures QUERY_TYPES[GET_PEERS] == GetPeersQuery && QUERY_TYPES[ANNOUNCE_PEER] == AnnouncePeerQuery
  {
  }

  /** A query built by makeQuery is dispatched by its name; find_node in particular is ignored. */
  lemma RouteMakeQuery(tid: seq<byte>, q: seq<byte>, a: Dict)
    ensures Route(MakeQuery(tid, q, a)) == if q in QUERY_TYPES then Query(QUERY_TYPES[q]) else Ignore
    ensures Route(MakeQuery(tid, FIND_NODE, a)) == Ignore
  {
    assert FIND_NODE !in QUERY_TYPES by {
      assert FIND_NODE[0] != GET_PEERS[0] && |FIND_NODE| != |ANNOUNCE_PEER|;
    }
  }

  /** A reply built by makeReply is dispatched to the reply path. */
  lemma RouteMakeReply(tid: seq<byte>, r: Dict)
    ensures Route(MakeReply(tid, r)) == Reply
  {
  }

  /** The compact node list carried by a reply's `r.nodes`, decoded; none when absent or mis-typed. */
  function ReplyNodes(d: Dict): (nodes: seq<Node>) {
    match SubDict(d, "r")
    case None => []
    case Some(r) =>
      match Str(r, "nodes")
      case None => []
      case Some(nodes) => CompactNodes(nodes)
  }
}

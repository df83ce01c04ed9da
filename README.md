# torsniff DHT crawler core, modelled in Dafny

This project models the message-handling core of torsniff's DHT crawler
(`dht.go`). The crawler joins the BitTorrent DHT (BEP 5, a Kademlia variant)
and harvests `announce_peer` events. The model covers these parts:

- node ids and `neighborID`, which splices a requester's id prefix onto the local id's suffix;
- the compact node list codec ("Contact Encoding" in BEP 5): 26-byte records rendered as `"a.b.c.d:port"` text;
- building KRPC messages (`makeQuery`, `makeReply`) and dispatching decoded ones (`onMessage`, `onQuery`, `queryTypes`, `onReply`);
- the get_peers handler, which always claims to know no peers but hands out a token;
- the token scheme (`genToken`, `validateToken`);
- the announce_peer gate (`onAnnouncePeerQuery`, `summarize`) feeding the bounded announcement list and its one-slot notifier.

Modules, leaf first:

- `Wrappers` (wrappers.dfy) holds `Option`.
- `Bencode` (bencode.dfy) holds decoded bencode values. Go's type assertions `d["k"].(T)` become the accessors `Str`, `Int` and `SubDict`.
- `Text` (text.dfy) holds `strconv.Itoa` and `hex.EncodeToString`, each with a reader that inverts it.
- `Nodes` (nodes.dfy) holds `neighborID`, the address text, and `decodeNodes`.
- `Messages` (messages.dfy) holds the KRPC envelope, the query table and the dispatch decision.
- `Announce` (announce.dfy) holds the announcement record and `summarize`.
- `Crawler` (dht.dfy) holds the `dht` object as class `Dht`. It also holds the handlers, the rate-limiter filter and the lemmas that relate them.
- `Scenarios` (scenarios.dfy) holds end-to-end sequences of handler calls whose outcomes the verifier proves.

How the environment is represented:

- SHA-1 is the class constant `hash`, an arbitrary function on byte strings.
- The random local id, the secret and the random transaction ids and targets are parameters.
- The rate limiter is an oracle `allow: nat -> bool`. `allow(i)` is the answer of `Allow()` for the i-th node of one reply.
- The unbuffered `chNode` channel is the output sequence `discovered`.
- `send` appends to the output sequence `sent`.
- The bencode decoder's result is the `Option<Dict>` that `OnMessage` receives.
- The notifier channel of capacity 1 is the flag `notifierPending`.

BEP 5 calls the info hash 20 bytes long. The code stores whatever string `a.info_hash` holds, and so does `Summarize`.

## Model

| member | source | states |
|---|---|---|
| `Nodes.NeighborID` | dht.go:45-51 | The id is 20 bytes long. Bytes 0..15 are the target's first 15 bytes and bytes 15..20 are the local id's last 5. |
| `Nodes.BigEndianUint16` | dht.go:79 | The big-endian value of two bytes is below 65536. |
| `Nodes.IPv4String` | dht.go:78 | The dotted-decimal text has at least 7 characters and starts and ends with a digit. AddressRoundTrip proves that it reads back as the four bytes. |
| `Nodes.CompactNodes` | dht.go:70-85 | Every node of the list has a 20-byte id. DecodeNodes computes exactly this list, and CompactNodeFields gives each node's fields. |
| `Nodes.DecodeNodes` | dht.go:70-85 | A length that is not a multiple of 26 gives no nodes at all. Otherwise there are exactly length/26 nodes, and node k is built from record k, in input order. |
| `Nodes.CompactNodeFields` | dht.go:76-82 | Node k's id is bytes 26k..26k+20. Its address text reads back as exactly bytes 26k+20..26k+24 and the port 256*s[26k+24] + s[26k+25]. |
| `Nodes.AddressRoundTrip` | dht.go:78-80 | The text `"a.b.c.d:port"` determines the four address bytes and the port: parsing it gives them back. |
| `Text.Decimal` | dht.go:80 | The Itoa text is non-empty, all decimal digits, and has no leading zero unless the number is 0. |
| `Text.DecimalValue` | dht.go:80 | The digits of the Itoa text have the value of the number. |
| `Text.ReadDecimal` | dht.go:80 | Reading the Itoa text back, when no digit follows it, gives the number and the rest of the text. |
| `Text.Hex` | dht.go:295 | The hex text of n bytes has 2n characters. |
| `Text.HexAt` | dht.go:295 | Byte k is written at positions 2k (high nibble) and 2k+1 (low nibble). |
| `Text.HexRoundTrip` | dht.go:295 | Decoding the hex text gives back the bytes. |
| `Text.HexIsLowerCase` | dht.go:295 | Every character of the hex text is 0-9 or a-f. |
| `Messages.MakeQuery` | dht.go:53-60 | Reading the message back through the type assertions gives `t` = the transaction id, `y` = "q", `q` = the query name and `a` = the arguments, with no `r`. RouteMakeQuery proves how it is dispatched. |
| `Messages.MakeReply` | dht.go:62-68 | Reading the message back gives `t` = the transaction id, `y` = "r" and `r` = the reply dictionary, with no `q`. RouteMakeReply proves it takes the reply path. |
| `Messages.QueryRoute` | dht.go:179-191 | onQuery never takes the reply path. A query path needs `t` and `q` to be strings, with `q` a name in queryTypes that maps to the chosen kind. RouteCases gives the converse. |
| `Messages.Route` | dht.go:165-175 | The query path needs `y` = "q" and is onQuery's decision. The reply path needs `y` = "r" or "e". RouteCases gives both directions. |
| `Messages.QueryTypesNames` | dht.go:124-127 | The query table has exactly two names, get_peers and announce_peer, mapped to their handlers. |
| `Messages.RouteCases` | dht.go:165-191 | A message goes to the query path for kind k exactly when `y` is "q", `t` is a string and `q` is a string naming k. It goes to the reply path exactly when `y` is "r" or "e". Anything else is ignored. |
| `Messages.RouteMakeQuery` | dht.go:53-60 | A makeQuery message is dispatched by its name. find_node in particular is ignored. |
| `Messages.RouteMakeReply` | dht.go:62-68 | A makeReply message is dispatched to the reply path. |
| `Announce.PeerPort` | dht.go:284-289 | The peer port is the UDP source port or the query's integer `port`, and it is the source port unless `implied_port` is the integer 0. SummarizePort gives both directions. |
| `Announce.Summarize` | dht.go:273-298 | Without an `a` dictionary there is no announcement. An announcement keeps the raw query and the source, puts the peer at the source IP with PeerPort's port, and holds `a.info_hash` with its hex text. SummarizeFields and SummarizePort prove the rest. |
| `Announce.SummarizeFields` | dht.go:273-298 | An announcement exists exactly when `a` is a dictionary and `a.info_hash` is a string. It keeps the raw query, the source, the info hash and the source IP as peer IP. Its hex text is twice as long as the info hash and decodes back to it. |
| `Announce.SummarizePort` | dht.go:284-289 | The peer port is `a.port` exactly when `implied_port` is the integer 0 and `port` is an integer; otherwise it is the UDP source port. An explicit port without `implied_port` is ignored. |
| `Crawler.AdmittedMembers` | dht.go:205-211 | A node reaches chNode exactly when it stands at a position the limiter allows. |
| `Crawler.AdmittedAppend` | dht.go:205-211 | The limiter filter keeps list order: filtering a concatenation filters the front, then the back. |
| `Crawler.AdmittedBurst` | dht.go:205-208 | A limiter that answers yes to the first b calls lets exactly the first b nodes through. |
| `Crawler.Dht.GenToken` | dht.go:312-317 | The hash of the source IP followed by the secret. It has no contract of its own: TokenRoundTrip and TokenIgnoresPort prove its properties. |
| `Crawler.Dht.ValidateToken` | dht.go:319-321 | Accepts a token exactly when it equals genToken of the source. TokenRoundTrip and IssuedTokenAccepted prove what it accepts. |
| `Crawler.TokenRoundTrip` | dht.go:312-321 | validateToken accepts the token genToken issues, for every source. |
| `Crawler.TokenIgnoresPort` | dht.go:312-317 | The token depends on the source IP only, not on its port. |
| `Crawler.GetPeersReplyContents` | dht.go:228-246 | A reply is sent exactly when `a.id` is a string of at least 15 bytes. The reply echoes `t`, goes to the reply path, has empty `nodes` (so it yields no nodes), and carries a token that validates for the requester. Its id shares the requester's first 15 bytes and the local id's last 5. |
| `Crawler.AcceptAnnounceCases` | dht.go:248-264 | An announcement is accepted exactly when four things hold: the list is below its bound, `a` is a dictionary, `a.token` is the source's genToken string, and `a.info_hash` is a string. What is stored is then `summarize` of the query. |
| `Crawler.AcceptAnnounceBound` | dht.go:249-251 | Accepting keeps the list within its bound. A full list accepts nothing. |
| `Crawler.IssuedTokenAccepted` | dht.go:240-261 | The token of a get_peers reply opens the announce gate for a later announce_peer from the same IP, on any port, when the list has room and the query names an info hash. |
| `Crawler.FindNodeQueryShape` | dht.go:214-219 | The find_node query echoes the transaction id and carries the random target. Its id lies next to the target's id. The crawler's own dispatcher ignores such a query. |
| `Crawler.GoInt` | dht.go:121 | The product lies in the 64-bit int range, is congruent to the exact product modulo 2^64, and equals it when it fits. |
| `Crawler.Dht.constructor` | dht.go:106-127 | The object starts empty. maxAnnouncements is maxFriendsPerSec × 10 computed in Go's `int` (`GoInt`), so a product past the int range wraps, possibly to a negative bound that admits nothing. A rate of 0 is excluded: the limiter setup divides by it (dht.go:88, 122) and panics. |
| `Crawler.Dht.Send` | dht.go:300-303 | The message and its destination are appended to what was sent. |
| `Crawler.Dht.OnMessage` | dht.go:159-176 | A failed decode or an ignored message changes nothing. The reply path extends `discovered` by the admitted decoded nodes. The get_peers path sends GetPeersReply. The announce_peer path stores AcceptAnnounce's result and sets the notifier if and only if something was stored. Each path leaves the other state unchanged, and the list bound is kept. |
| `Crawler.Dht.OnQuery` | dht.go:178-192 | The same as OnMessage for the query path, decided by `t`, `q` and queryTypes. |
| `Crawler.Dht.OnReply` | dht.go:194-212 | `discovered` grows by exactly the decoded `r.nodes` that the limiter allows, in order. A missing or mis-typed `r` or `r.nodes` adds nothing. |
| `Crawler.Dht.OnGetPeersQuery` | dht.go:228-246 | Sends exactly GetPeersReply to the requester, or nothing. |
| `Crawler.Dht.OnAnnouncePeerQuery` | dht.go:248-271 | The list becomes the old list plus the accepted announcement at the back, if any. The notifier is set after a push and untouched after a refusal. The bound is kept. |
| `Crawler.Dht.FindNode` | dht.go:214-226 | Sends the find_node query to the resolved address, or nothing when resolution fails. |
| `Scenarios.HexOfElevens` | dht.go:295 | The hex text of twenty 0x11 bytes is forty '1' characters. |

## Left out

- The UDP socket, `listen`, the socket write in `send`, and address resolution in `findNode` are network I/O. Outgoing messages are recorded in `sent`, and the result of resolution is a parameter.
- The goroutines `join`, `makefriends` and `listen`, the blocking of the unbuffered `chNode`, and the `die`/`errDie` shutdown are concurrency, which is not modelled. `chNode` is the append-only sequence `discovered`.
- The bootstrap seed list used by `join` is not modelled. It only feeds the goroutine above.
- bencode `Encode` and `Decode` belong to an external library. The model starts from decoded dictionaries and from the success or failure of decoding.
- The token-bucket limiter (`golang.org/x/time/rate`, `per`) refills from the clock. It is replaced by the `allow` oracle, so the refill-over-time behaviour is not modelled.
- SHA-1, `crypto/rand` and `randBytes` are not modelled. The hash is an arbitrary function and the random values are parameters. As a result, "distinct IPs get distinct tokens" and "a token made under another secret fails" cannot be stated: both need properties of SHA-1.
- The downstream consumer that drains the announcement list and takes the notifier signal is not part of dht.go. The concurrent, unsynchronised access it makes to the list is not modelled either.
- `net.UDPAddr` and `net.TCPAddr` are reduced to IP bytes and an integer port. Bencode integers are unbounded here; Go's decoder limits them to int64, and no arithmetic is done on them.
- `Crawler.GoInt`: Go's `int` is taken to be 64 bits wide. On a 32-bit platform `maxFriendsPerSec * 10` wraps modulo 2^32 instead, which the model does not capture.
- Dictionary keys are Dafny strings, standing for the ASCII byte strings the source uses.
- `Crawler.Dht.OnGetPeersQuery`: when the requester's `a.id` is shorter than 15 bytes, Go's `target[:15]` in neighborID goes past the slice's length. It panics or reads spare capacity, depending on how the byte conversion was allocated. The model drops such a query without a reply instead.
- `Crawler.GetPeersReplyContents`: its "a reply is sent exactly when `a.id` is a string of at least 15 bytes" is the model's rule for the short-id case above, not the source's; the source checks only that `a.id` is a string.

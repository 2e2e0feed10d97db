# Verified models of the tunnel's data plane

These Dafny modules model the parts of the tunnel that keep state, rewrite bytes in place or speak a
protocol, and prove what their callers rely on. `dafny verify dfyconfig.toml` checks all of them.

## What is modelled

**The fake-IP name server** (`HevList`, `DnsTree`, `LruSpec`, `MappedDns`, `DnsRuns`, `DnsWire`,
`DnsHandle`, `DnsReply`, `DnsAnswers`). A search tree by name, a doubly linked recency list and an array by
index share the same heap nodes. Every `find` and `lookup` keeps the three refining one bounded map with
least-recently-used eviction, and what that map holds after any run is characterised from the history
alone. The message handler works in place on the two packet buffers; its result, its reply and its effect
on the map are given for malformed queries too, and for well-formed ones the reply is a well-formed message
whose addresses resolve back to the names asked.

**The zero-copy TCP session** (`RingBuffer`, `TcpFlow`, `TcpSession`, `TcpLive`). Ring cells are free, readable, or
handed to lwIP and not yet acknowledged. Sockets and lwIP decide every outcome; both directions carry their streams
unbroken, with the one exception below. `TcpFlow` is the session as a value and each outcome as a function
on it; the two loops are their folds, and `TcpLive` says that they read, write, deliver and come to an end.

**The UDP session** (`UdpNames`, `UdpSession`). The rotating name slots and the datagram pool.

**The ICMP rejection** (`IcmpReject`). The packet parser, and the packet with its two checksums.

**The SOCKS bridge** (`SocksProtocol`, `Handshake`, `ByteBuffer`, `Verdicts`, `BridgeSpec`, `BridgeIo`,
`BridgeLive`, `BridgeConn`, `Bridge`).
`Handshake` says what all the bytes a peer has sent so far mean, and `Verdicts` tells by the octets alone
which peers are let through, refused, dropped or failed. `BridgeSpec` derives from it, for the
bytes read from both peers, the two streams the bridge owes. `BridgeIo` says of any event what is read,
what is written and how it ends, as a function of what the sockets do, and `BridgeLive` that sockets which
play along have everything read, answered and delivered. `BridgeConn` is the connection with
its mutable fields and three buffers: every event does exactly that, and between any two events, whatever
the sockets did, what has been written to a peer plus what is pending is the stream owed to it. `Bridge` is
the registry with its counters.

**Codecs** (`Base64`, `TunnelToml`, `TomlReader`, `ForcedKey`, `WindowsSettings`). Lenient base64, the forced
top-level key, and the connection-settings blob. `TomlReader` is a reader of TOML that knows nothing of the
rewrite: bare, quoted and dotted keys, the four kinds of strings, arrays and inline tables over several
lines. What forcing a key means is said in its terms.

Sockets, lwIP, clocks and the selector appear as outcomes left open: parameters in the C sessions, a script
per connection in the bridge. Ghost fields record what was exchanged. `DnsFailures`, `BridgeFailures`,
`ForcedKeyFailures` and `TcpSession.ReachGap` reach the cases below from a fresh state.

## Where the code does less than one might expect

- Answers carry only eight bits of a question's offset, so a query with a later A/IN question starting at
  or beyond offset 256 gets a reply that points at the wrong name. `DnsReply.ReplyIsWellFormed` has the
  exact condition, `DnsFailures.LateQuestionMisleads` a legal query.
- `tcp_splice_b` goes on to the second segment after `tcp_write` refused the first, so lwIP can be left
  with a gap in the stream. The refused bytes still count as in flight, and since lwIP never had them no
  acknowledgement releases them: while the pcb lives, the last loop of the session never sees an empty
  ring. `TcpSession.TakenShape` and `TcpSession.TcpSession.SpliceB` have the exact condition,
  `TcpSession.ReachGap` a run, `TcpSession.TcpSession.Drain` the consequence.
- A name with a NUL inside a label is cut there before it is looked up, and only then
  (`DnsReply.AnswersResolve`, `DnsFailures.NulCutsName`).
- A query that ends with its last question but counts more of them has one byte behind it read
  (`DnsReply.ReadsPastEnd`).
- The TOML rewrite looks at lines, not at statements. It comments out the line of another key when that key
  is quoted and holds ours before an equals sign; it takes a line of a nested array for a table header, and
  leaves a duplicate after it; it comments out only the first line of a longer value of ours; and it may do
  the same to a line inside another statement's value. `ForcedKey.ForcedMeansWanted` says exactly when none of
  this happens, `ForcedKey.SimpleAgrees` gives a condition that is easy to check, and `ForcedKeyFailures` has
  the inputs. `q` leaves control characters other than tab, newline and return unescaped, which TOML forbids
  (`ForcedKeyFailures.ControlInValue`), and the key's text is taken as it is (`ForcedKeyFailures.NoKeys`).
- A failed upstream is reported to the client exactly when nothing else is pending for it
  (`BridgeConn.Conn.FailUpstream`, `BridgeFailures.ReachUnreported`).
- The proxy flag of the settings blob is also set when it is among the extra flags although the proxy is
  not enabled (`WindowsSettings.ProxyShown`, `WindowsSettings.ProxyUnasked`).
- The comment on the settings layout mentions no trailing bytes; the code writes 32 zeros, and the model
  follows the code.

## Model

| member | source | states |
|---|---|---|
| `HevList.List.AddTail` | app/src/main/cpp/hev-socks5-tunnel-src/src/misc/hev-list.c:14-25 | The node becomes the last of a well-linked list; the others keep their order. |
| `HevList.List.Del` | app/src/main/cpp/hev-socks5-tunnel-src/src/misc/hev-list.c:27-39 | Exactly the node leaves; the list stays well linked and in order. |
| `HevList.List.Requeue` | app/src/main/cpp/hev-socks5-tunnel-src/src/hev-mapped-dns.c:117-118 | Deleting a node and adding it at the tail makes it the last and keeps the order of the rest. |
| `DnsTree.Tree.Search` | app/src/main/cpp/hev-socks5-tunnel-src/src/hev-mapped-dns.c:105-121 | The descent finds the node that carries the name, or the parent under which a node of that name belongs. |
| `DnsTree.Tree.LinkUnder` | app/src/main/cpp/hev-socks5-tunnel-src/src/hev-mapped-dns.c:127-128 | Linking there keeps the tree a search tree and adds exactly the new node. |
| `DnsTree.InsertSorted` | app/src/main/cpp/hev-socks5-tunnel-src/src/hev-mapped-dns.c:105-128 | Insertion at the leaf the search reaches keeps names in order and adds one node. |
| `DnsTree.Tree.Remove` | app/src/main/cpp/hev-socks5-tunnel-src/src/hev-mapped-dns.c:141 | Erasing a node leaves a search tree of exactly the others. |
| `DnsTree.EraseSorted` | app/src/main/cpp/hev-socks5-tunnel-src/src/hev-mapped-dns.c:141 | Erasing a key keeps names in order and removes exactly its node. |
| `MappedDns.MappedDns.New` | app/src/main/cpp/hev-socks5-tunnel-src/src/hev-mapped-dns.c:273-294 | Refused exactly when the host part cannot number `max` names; otherwise an empty cache. |
| `MappedDns.MappedDns.Find` | app/src/main/cpp/hev-socks5-tunnel-src/src/hev-mapped-dns.c:98-150 | Tree, recency list and record array go on agreeing; together they hold exactly what a least-recently-used map of at most `max` names holds after this find, and the index returned is the name's. |
| `MappedDns.MappedDns.Lookup` | app/src/main/cpp/hev-socks5-tunnel-src/src/hev-mapped-dns.c:253-271 | The same for a lookup: the name behind the host part of the address, made the most recent, or none. |
| `MappedDns.MappedDns.ContentsWellFormed` | app/src/main/cpp/hev-socks5-tunnel-src/src/hev-mapped-dns.c:98-150 | Whatever the structures hold is a cache of at most `max` entries with distinct names and distinct indices below the number in use. |
| `MappedDns.MappedDns.HoldsExactLru` | app/src/main/cpp/hev-socks5-tunnel-src/src/hev-mapped-dns.c:98-150 | After whatever finds and lookups the server has served, it holds exactly the names touched with fewer than `max` distinct others since, in exact order of recency. |
| `LruSpec.ExactLru` | app/src/main/cpp/hev-socks5-tunnel-src/src/hev-mapped-dns.c:98-150 | After any run a name is held exactly when fewer than `max` distinct other names have been touched since it last was, and the list is in exact order of recency. |
| `LruSpec.RunMirrors` | app/src/main/cpp/hev-socks5-tunnel-src/src/hev-mapped-dns.c:98-150 | The names held, oldest first, mirror the history of touches that produced them. |
| `LruSpec.IndexStable` | app/src/main/cpp/hev-socks5-tunnel-src/src/hev-mapped-dns.c:105-149 | A name that carries an index carries the same one after any further run that touches fewer than `max` distinct others. |
| `LruSpec.FindAllKeeps` | app/src/main/cpp/hev-socks5-tunnel-src/src/hev-mapped-dns.c:201-230 | Finds of at most `max` distinct names in a row do not push each other out; each still carries the index it was given. |
| `DnsRuns.AddressStable` | app/src/main/cpp/hev-socks5-tunnel-src/src/hev-mapped-dns.c:98-150 | The address minted for a name lies in the network and looks up that name, and the name finds that index again, after any further run that touches fewer than `max` others. |
| `DnsRuns.ServerAddressStable` | app/src/main/cpp/hev-socks5-tunnel-src/src/hev-mapped-dns.c:98-150 | The same of a running server: its answers for the name and for the address minted for it, whatever it served in between. |
| `DnsHandle.DotName` | app/src/main/cpp/hev-socks5-tunnel-src/src/hev-mapped-dns.c:205-213 | The label walk turns length bytes into dots in place exactly as the pure reading of the name says, and stops where it runs past the query. |
| `DnsHandle.OneQuestion` | app/src/main/cpp/hev-socks5-tunnel-src/src/hev-mapped-dns.c:202-230 | One question: name, type and class, and a find exactly for A/IN. |
| `DnsHandle.Questions` | app/src/main/cpp/hev-socks5-tunnel-src/src/hev-mapped-dns.c:201-230 | All the questions scanned, and the cache after all the finds they call for. |
| `DnsHandle.WriteAnswers` | app/src/main/cpp/hev-socks5-tunnel-src/src/hev-mapped-dns.c:232-245 | The sixteen-byte answers in order, or a refusal where one does not fit `slen`. |
| `DnsHandle.Handle` | app/src/main/cpp/hev-socks5-tunnel-src/src/hev-mapped-dns.c:174-251 | Result, reply bytes and cache for every query whose questions start at bytes that are there, the malformed ones included, as one predicate on the query. |
| `DnsReply.ReplyIsWellFormed` | app/src/main/cpp/hev-socks5-tunnel-src/src/hev-mapped-dns.c:174-251 | A well-formed query is refused exactly when its answers do not fit; otherwise the reply is the encoding of a message with the same id and questions, the reply flags and one A record per A/IN question (sections 4.1.1 to 4.1.4 of RFC 1035), if and only if those questions start below offset 256. |
| `DnsReply.AnswersResolve` | app/src/main/cpp/hev-socks5-tunnel-src/src/hev-mapped-dns.c:219-227 | With at most `max` distinct names asked, the address in each answer is the network's plus the index, its masked part the network and its host part the index, and afterwards looks up its question's name, which is the dotted one exactly if no label holds a NUL. |
| `DnsReply.LegalQueriesFit` | app/src/main/cpp/hev-socks5-tunnel-src/src/hev-mapped-dns.c:198-199 | At most 32 questions with names of legal length always lie within a pointer's 14 bits, which the reply theorem asks for (section 2.3.4 of RFC 1035). |
| `DnsReply.ReadsPastEnd` | app/src/main/cpp/hev-socks5-tunnel-src/src/hev-mapped-dns.c:202-217 | A query that ends with its last question is read past its end exactly when its header counts more questions than it has. |
| `DnsReply.ScanEncoded` | app/src/main/cpp/hev-socks5-tunnel-src/src/hev-mapped-dns.c:201-230 | Scanning the encoding of any list of questions recovers exactly the A/IN questions, their offsets and dotted names. |
| `DnsReply.PointerTargets` | app/src/main/cpp/hev-socks5-tunnel-src/src/hev-mapped-dns.c:236-237 | The offset put into an answer is where the encoded name of its question lies. |
| `DnsReply.AnswerIsRecord` | app/src/main/cpp/hev-socks5-tunnel-src/src/hev-mapped-dns.c:236-242 | Sixteen answer bytes are an A record with a compression pointer exactly when the pointer's offset is below 256. |
| `DnsReply.ReplyFlagsMeaning` | app/src/main/cpp/hev-socks5-tunnel-src/src/hev-mapped-dns.c:247 | Bit by bit: QR set, RA copied from RD, every other flag as it was. |
| `DnsAnswers.AnsweredExactly` | app/src/main/cpp/hev-socks5-tunnel-src/src/hev-mapped-dns.c:174-251 | A query gets a reply exactly if it fits the buffer, counts at most 32 questions, holds them all well-formed, and their answers fit. |
| `DnsAnswers.AnsweredAre` | app/src/main/cpp/hev-socks5-tunnel-src/src/hev-mapped-dns.c:219 | Answered are the questions of type 1 and class 1, in order. |
| `DnsAnswers.ReplyOctets` | app/src/main/cpp/hev-socks5-tunnel-src/src/hev-mapped-dns.c:232-249 | Octet by octet: id and questions as they came, the counts, and sixteen octets per answer that end in the network's address with the index in its host part. |
| `DnsAnswers.ReplyStable` | app/src/main/cpp/hev-socks5-tunnel-src/src/hev-mapped-dns.c:201-242 | The four octets that end an answer lie in the network and keep looking up the name asked, through the rest of the query and any further run that touches fewer than `max` others. |
| `DnsFailures.LateQuestionMisleads` | app/src/main/cpp/hev-socks5-tunnel-src/src/hev-mapped-dns.c:237 | From a fresh server, a legal query with a question at offset 271 gets a reply that is not the encoding it should be. |
| `DnsFailures.NulCutsName` | app/src/main/cpp/hev-socks5-tunnel-src/src/hev-mapped-dns.c:222 | From a fresh server: one query for two names that differ only after a NUL is answered with one address twice, which then looks up a name that is neither of them. |
| `RingBuffer.RingBuffer.Reading` | app/src/main/cpp/hev-socks5-tunnel-src/src/misc/hev-ring-buffer.c:25-45 | One or two segments that spell exactly the readable bytes in order. |
| `RingBuffer.RingBuffer.ReadFinish` | app/src/main/cpp/hev-socks5-tunnel-src/src/misc/hev-ring-buffer.c:47-52 | The first `size` readable bytes move to the end of those in flight. |
| `RingBuffer.RingBuffer.ReadRelease` | app/src/main/cpp/hev-socks5-tunnel-src/src/misc/hev-ring-buffer.c:54-62 | The oldest `size` bytes in flight leave; starting over at zero changes neither queue. |
| `RingBuffer.RingBuffer.Writing` | app/src/main/cpp/hev-socks5-tunnel-src/src/misc/hev-ring-buffer.c:64-85 | The segments name every free cell, no other, each once, in filling order. |
| `RingBuffer.RingBuffer.FreeXorUsed` | app/src/main/cpp/hev-socks5-tunnel-src/src/misc/hev-ring-buffer.c:64-85 | A cell is offered for writing exactly when it holds no byte in flight or readable. |
| `RingBuffer.RingBuffer.Fill` | app/src/main/cpp/hev-socks5-tunnel-src/src/hev-socks5-session-tcp.c:94 | `readv` into the segments it is given: the bytes fill their cells in order, and no other cell changes. |
| `RingBuffer.RingBuffer.FilledFree` | app/src/main/cpp/hev-socks5-tunnel-src/src/hev-socks5-session-tcp.c:92-101 | Filling cells that `writing` offers leaves every byte in flight or readable as it was, and the new bytes follow the readable ones. |
| `RingBuffer.RingBuffer.WriteFinish` | app/src/main/cpp/hev-socks5-tunnel-src/src/misc/hev-ring-buffer.c:87-93 | The bytes just filled join the end of the readable queue. |
| `RingBuffer.SegmentsGather` | app/src/main/cpp/hev-socks5-tunnel-src/src/misc/hev-ring-buffer.c:25-45 | The two segments around the end of the buffer read as the cells in ring order. |
| `TcpSession.TcpSession.SpliceF` | app/src/main/cpp/hev-socks5-tunnel-src/src/hev-socks5-session-tcp.c:44-83 | Bytes accepted from lwIP are always those written to the socket plus those queued; credit follows writes; SHUT_WR comes only at the application's end with an empty queue. |
| `TcpSession.TcpSession.Recv` | app/src/main/cpp/hev-socks5-tunnel-src/src/hev-socks5-session-tcp.c:133-152 | A chain is queued whole or refused whole, by the window test. |
| `TcpSession.TcpSession.SpliceB` | app/src/main/cpp/hev-socks5-tunnel-src/src/hev-socks5-session-tcp.c:85-131 | What lwIP holds is a prefix of what the socket gave, and its pcb is shut down only with all of it held; a gap arises exactly when `tcp_write` refuses the first of two segments and takes the second. |
| `TcpSession.TcpSession.ReadSocket` | app/src/main/cpp/hev-socks5-tunnel-src/src/hev-socks5-session-tcp.c:92-105 | The bytes read go into the segments offered and to the end of the readable queue; nothing unacknowledged is overwritten. |
| `TcpSession.ReachGap` | app/src/main/cpp/hev-socks5-tunnel-src/src/hev-socks5-session-tcp.c:113-118 | A run from the start in which the ring wraps, the first of two segments is refused and lwIP is left with a gap. |
| `TcpSession.TakenShape` | app/src/main/cpp/hev-socks5-tunnel-src/src/hev-socks5-session-tcp.c:113-118 | The positions taken continue the stream without a gap if and only if it is not that the first of two segments is refused and the second taken. |
| `TcpSession.StreamHand` | app/src/main/cpp/hev-socks5-tunnel-src/src/hev-socks5-session-tcp.c:109-121 | Handing the readable bytes on keeps lwIP's view a prefix and every unacknowledged byte in the ring. |
| `TcpSession.TcpSession.Sent` | app/src/main/cpp/hev-socks5-tunnel-src/src/hev-socks5-session-tcp.c:154-163 | An acknowledgement of bytes lwIP was given releases exactly those. |
| `TcpSession.TcpSession.Deliver` | app/src/main/cpp/hev-socks5-tunnel-src/src/hev-socks5-session-tcp.c:133-172 | Each callback moves its own part of the state, exactly as `TcpFlow.Heard` says, and keeps both directions intact. |
| `TcpSession.TcpSession.Splice` | app/src/main/cpp/hev-socks5-tunnel-src/src/hev-socks5-session-tcp.c:236-253 | The loop leaves the session exactly where folding the turns over it does (`TcpFlow.Spliced`): both directions each turn unless they have ended, on until both have, a yielder fails or the turns are used up. |
| `TcpSession.TcpSession.Drain` | app/src/main/cpp/hev-socks5-tunnel-src/src/hev-socks5-session-tcp.c:255-261 | The session then waits until the ring is empty, exactly as `TcpFlow.Waited` says. While the pcb lives an empty ring means lwIP refused nothing and everything handed over has been acknowledged. |
| `TcpLive.TurnReads` | app/src/main/cpp/hev-socks5-tunnel-src/src/hev-socks5-session-tcp.c:92-105 | In every turn what the proxy's socket gives is read, up to the free cells. |
| `TcpLive.TurnWrites` | app/src/main/cpp/hev-socks5-tunnel-src/src/hev-socks5-session-tcp.c:44-71 | In every turn the socket is offered the first 64 pbufs and what it takes of them is written, the rest kept. |
| `TcpLive.SpliceFinishes` | app/src/main/cpp/hev-socks5-tunnel-src/src/hev-socks5-session-tcp.c:236-253 | Once the application has ended, a proxy that has ended and takes a byte a turn lets the loop finish in as many turns as bytes wait and two more, with everything written and the socket shut, whatever lwIP does meanwhile. |
| `TcpLive.ServingDelivers` | app/src/main/cpp/hev-socks5-tunnel-src/src/hev-socks5-session-tcp.c:85-131 | Whatever chunks the proxy sends in, wherever they wrap round the ring, lwIP is given every byte in order and told of the end after the last. |
| `TcpLive.AcksDrain` | app/src/main/cpp/hev-socks5-tunnel-src/src/hev-socks5-session-tcp.c:255-261 | Acknowledgements of everything in flight, in whatever portions, empty the ring and end the wait. |
| `TcpLive.RefusedStays` | app/src/main/cpp/hev-socks5-tunnel-src/src/hev-socks5-session-tcp.c:255-261 | While the pcb lives, bytes that lwIP refused keep the ring from ever emptying. |
| `UdpSession.UdpSession.Learn` | app/src/main/cpp/hev-socks5-tunnel-src/src/hev-socks5-session-udp.c:144-171 | The rotating slots refine a bounded queue of records, updated by this one. |
| `UdpSession.UdpSession.Lookup` | app/src/main/cpp/hev-socks5-tunnel-src/src/hev-socks5-session-udp.c:173-194 | The record of the name in that queue, or none. |
| `UdpNames.HoldsNewest` | app/src/main/cpp/hev-socks5-tunnel-src/src/hev-socks5-session-udp.c:144-171 | After any run the map holds exactly the last sixteen newly inserted names, in order, each once. |
| `UdpNames.RemembersSixteen` | app/src/main/cpp/hev-socks5-tunnel-src/src/hev-socks5-session-udp.c:144-200 | A record learned for a new name of 1 to 255 bytes is found again whatever fifteen others are learned after it. |
| `UdpNames.LookupIsLastLearned` | app/src/main/cpp/hev-socks5-tunnel-src/src/hev-socks5-session-udp.c:173-194 | A lookup returns the address and port last learned for a name that is still held, and nothing for any other name. |
| `UdpNames.RunSound` | app/src/main/cpp/hev-socks5-tunnel-src/src/hev-socks5-session-udp.c:144-171 | Names in the map stay distinct, storable and at most sixteen. |
| `UdpSession.UdpSession.Recv` | app/src/main/cpp/hev-socks5-tunnel-src/src/hev-socks5-session-udp.c:289-329 | A datagram is dropped exactly when 513 wait; otherwise it queues last, and a named destination is learned. |
| `UdpSession.UdpSession.FwdF` | app/src/main/cpp/hev-socks5-tunnel-src/src/hev-socks5-session-udp.c:66-109 | Exactly as many datagrams leave the front as were sent; accepted is always sent followed by waiting. |
| `UdpSession.UdpSession.ReplySource` | app/src/main/cpp/hev-socks5-tunnel-src/src/hev-socks5-session-udp.c:232-261 | A reply naming a remembered peer comes from the address the application last used for it; an unknown name is dropped. |
| `IcmpReject.ParseUdpPacket` | app/src/main/cpp/hev-socks5-tunnel-src/src/hev-socks5-tunnel.c:303-331 | A header length comes back exactly for IPv4 carrying UDP, within the packet. |
| `IcmpReject.UdpExactly` | app/src/main/cpp/hev-socks5-tunnel-src/src/hev-socks5-tunnel.c:303-331 | Accepted are exactly the IPv4 packets of protocol 17, with any options, of 28 octets at least and four behind the header, whose length is read as it is. |
| `IcmpReject.OnesSumIsRemainder` | app/src/main/cpp/hev-socks5-tunnel-src/src/hev-socks5-tunnel.c:375-380 | The sum is the octets, padded and read as one number, modulo 65535, and zero only for zeros. |
| `IcmpReject.FoldedSum` | app/src/main/cpp/hev-socks5-tunnel-src/src/hev-socks5-tunnel.c:375-380 | Adding words in 32 bits and folding gives the one's complement sum of section 1 of RFC 1071. |
| `IcmpReject.ChecksumVerifies` | app/src/main/cpp/hev-socks5-tunnel-src/src/hev-socks5-tunnel.c:375-407 | Storing the complement of the sum over a region with a zero word makes the region sum to 0xFFFF. |
| `IcmpReject.SumWords` | app/src/main/cpp/hev-socks5-tunnel-src/src/hev-socks5-tunnel.c:376-378 | The 32-bit sum never wraps, the odd last byte included. |
| `IcmpReject.Checksum` | app/src/main/cpp/hev-socks5-tunnel-src/src/hev-socks5-tunnel.c:379-381 | The fold loop ends, with the complement of the folded sum. |
| `IcmpReject.PortUnreachablePacket` | app/src/main/cpp/hev-socks5-tunnel-src/src/hev-socks5-tunnel.c:341-412 | Nothing when the original is too short to quote; otherwise an exact Destination Unreachable packet (RFC 792) with its length field right and both checksums verifying. |
| `SocksProtocol.GreetingParsed` | shared/src/commonMain/kotlin/app/smugly/tunnel/SocksProtocol.kt:18-25 | The parser accepts exactly the method lists of section 3 of RFC 1928, and returns theirs. |
| `SocksProtocol.AuthParsed` | shared/src/commonMain/kotlin/app/smugly/tunnel/SocksProtocol.kt:27-38 | The parser accepts exactly the login messages of section 2 of RFC 1929, and returns their parts. |
| `SocksProtocol.RequestParsed` | shared/src/commonMain/kotlin/app/smugly/tunnel/SocksProtocol.kt:46-65 | The parser accepts exactly the requests of section 4 of RFC 1928, any reserved byte allowed, and returns their parts. |
| `SocksProtocol.ForwardedRequest` | shared/src/commonMain/kotlin/app/smugly/tunnel/SocksProtocol.kt:107-115 | What goes upstream is the client's request, byte for byte, with the reserved byte cleared. |
| `SocksProtocol.UpstreamAuth` | shared/src/commonMain/kotlin/app/smugly/tunnel/SocksProtocol.kt:88-99 | The login message for the credentials, refused exactly when one is longer than 255 bytes. |
| `SocksProtocol.UpstreamCommand` | shared/src/commonMain/kotlin/app/smugly/tunnel/SocksProtocol.kt:107-115 | The array filled step by step is the request message. |
| `SocksProtocol.BuiltFramesParse` | shared/src/commonMain/kotlin/app/smugly/tunnel/SocksProtocol.kt:88-115 | What the builders make, the client-side parsers read back, with anything following left over. |
| `SocksProtocol.ReplyParses` | shared/src/commonMain/kotlin/app/smugly/tunnel/SocksProtocol.kt:76-77 | A reply built for a client reads as granted exactly when its code is zero. |
| `SocksProtocol.Settled` | shared/src/commonMain/kotlin/app/smugly/tunnel/SocksProtocol.kt:18-133 | Once a parser accepts or rejects, no byte that arrives later changes its verdict. |
| `SocksProtocol.OnlyArrived` | shared/src/commonMain/kotlin/app/smugly/tunnel/SocksProtocol.kt:18-133 | No parser looks beyond the bytes that have arrived, whatever the buffer still holds behind them. |
| `SocksProtocol.NeverJams` | shared/src/commonMain/kotlin/app/smugly/tunnel/SocksProtocol.kt:18-133 | A parser asks for more only below 513 bytes, so never on a full handshake buffer. |
| `SocksProtocol.MoreCanComplete` | shared/src/commonMain/kotlin/app/smugly/tunnel/SocksProtocol.kt:18-133 | Where a parser asks for more, some continuation completes the message exactly if the bytes so far rule none out; with fewer bytes than it judges by it also waits on some that do. |
| `Handshake.ClientMore` | app/src/main/java/app/smugly/tunnel/MiniSlipstreamSocksBridge.kt:288-343 | The client's bytes so far put the conversation where later bytes continue from; nothing depends on where reads split them. |
| `Handshake.Fragmentation` | app/src/main/java/app/smugly/tunnel/MiniSlipstreamSocksBridge.kt:288-343 | For every way of cutting the client's stream into reads: same phase, request, answers and leftover. |
| `Handshake.ServerMore` | app/src/main/java/app/smugly/tunnel/MiniSlipstreamSocksBridge.kt:367-425 | The same for the upstream server's replies. |
| `Handshake.ServerFragmentation` | app/src/main/java/app/smugly/tunnel/MiniSlipstreamSocksBridge.kt:367-425 | The same for every way of cutting the server's stream. |
| `Handshake.ClientSizes` | app/src/main/java/app/smugly/tunnel/MiniSlipstreamSocksBridge.kt:33-34 | Answers to a client stay within 14 bytes and an unfinished message below 513. |
| `Verdicts.AskedExactly` | app/src/main/java/app/smugly/tunnel/MiniSlipstreamSocksBridge.kt:298-337 | A client's request goes through exactly if it offers the method asked for, logs in as set where both settings are there, and makes it; it has been told so, and what follows is kept. |
| `Verdicts.RefusedExactly` | app/src/main/java/app/smugly/tunnel/MiniSlipstreamSocksBridge.kt:311-333 | A client is told no, in these octets, exactly for lack of the method, for a login other than the one set, or for a request of another version or address type. |
| `Verdicts.DroppedExactly` | app/src/main/java/app/smugly/tunnel/MiniSlipstreamSocksBridge.kt:301-320 | A client is dropped without a word exactly for a wrong version, no methods, or a login of another version. |
| `Verdicts.UpExactly` | app/src/main/java/app/smugly/tunnel/MiniSlipstreamSocksBridge.kt:376-419 | The relay comes up exactly for a server that picks a method other than 0xFF, accepts the login where it picked 2, and replies with code 0 and a complete address; it has been sent login and request, octet for octet. |
| `Verdicts.FailedExactly` | app/src/main/java/app/smugly/tunnel/MiniSlipstreamSocksBridge.kt:376-419 | A server fails exactly for another version or 0xFF, for a login answered with anything but 0, or for a reply with another code or address type. |
| `Verdicts.CrashedExactly` | app/src/main/java/app/smugly/tunnel/MiniSlipstreamSocksBridge.kt:383-385 | The connection is lost exactly where the server picks 2 and the login to show is longer than 255 bytes. |
| `ByteBuffers.ByteBuffer.Queue` | app/src/main/java/app/smugly/tunnel/MiniSlipstreamSocksBridge.kt:505-512 | All the bytes are appended, or none when they do not fit. |
| `ByteBuffers.ByteBuffer.Consume` | app/src/main/java/app/smugly/tunnel/MiniSlipstreamSocksBridge.kt:514-519 | The first bytes leave and the rest move to the front. |
| `ByteBuffers.ByteBuffer.ShiftDown` | app/src/main/java/app/smugly/tunnel/MiniSlipstreamSocksBridge.kt:495-501 | After a partial write the unwritten bytes are at the front, in order. |
| `BridgeSpec.EndToEnd` | app/src/main/java/app/smugly/tunnel/MiniSlipstreamSocksBridge.kt:367-425 | With a client that enters and asks and a server that passes and grants: the client is owed its answers, the ten octets of success and then the server's bytes; the server its greeting, the login, the request and then the client's bytes, those sent early included. |
| `BridgeSpec.RoomToRead` | app/src/main/java/app/smugly/tunnel/MiniSlipstreamSocksBridge.kt:33-34 | Between events a handshake buffer always has room for at least 511 bytes more. |
| `BridgeSpec.ClientRoom` | app/src/main/java/app/smugly/tunnel/MiniSlipstreamSocksBridge.kt:505-512 | What is pending for a client before the relay is at most 14 bytes, so queueing to it never overflows. |
| `BridgeSpec.ServerRoom` | app/src/main/java/app/smugly/tunnel/MiniSlipstreamSocksBridge.kt:505-512 | What is pending for the server during its handshake is at most 778 bytes, so queueing to it never overflows. |
| `BridgeSpec.TracksSound` | app/src/main/java/app/smugly/tunnel/MiniSlipstreamSocksBridge.kt:263-284 | Nothing is ever on its way to a peer that its stream does not owe, but one failure reply at the end. |
| `BridgeSpec.Upload` | app/src/main/java/app/smugly/tunnel/MiniSlipstreamSocksBridge.kt:451-455 | A byte read from the client extends what is owed to the server by that byte and changes nothing owed to the client. |
| `BridgeSpec.Download` | app/src/main/java/app/smugly/tunnel/MiniSlipstreamSocksBridge.kt:458-462 | The same the other way. |
| `BridgeIo.TurnsMove` | app/src/main/java/app/smugly/tunnel/MiniSlipstreamSocksBridge.kt:443-463 | Over any number of turns of the relay, whatever is read and written: in each direction written plus waiting grows by exactly what was read, in order, and nothing is read from a peer that has ended. |
| `BridgeIo.EndedDrains` | app/src/main/java/app/smugly/tunnel/MiniSlipstreamSocksBridge.kt:443-484 | Once both peers have ended, sockets that take at least a byte whenever asked let the relay finish in as many turns as bytes wait, everything delivered. |
| `BridgeIo.ServiceLater` | app/src/main/java/app/smugly/tunnel/MiniSlipstreamSocksBridge.kt:263-284 | No event of any phase takes back what was read or written, and none moves a byte once the sockets are idle. |
| `BridgeLive.TurnReadsClient` | app/src/main/java/app/smugly/tunnel/MiniSlipstreamSocksBridge.kt:451-455 | With room in the buffer a turn of the relay reads what the client's socket gives, up to that room; its end is seen, and an error closes the connection. |
| `BridgeLive.TurnReadsServer` | app/src/main/java/app/smugly/tunnel/MiniSlipstreamSocksBridge.kt:458-462 | The same from the server, in the same turn. |
| `BridgeLive.TurnWrites` | app/src/main/java/app/smugly/tunnel/MiniSlipstreamSocksBridge.kt:456-463 | Of what waits as much is written as the socket takes, and the rest waits on. |
| `BridgeLive.TalkDelivers` | app/src/main/java/app/smugly/tunnel/MiniSlipstreamSocksBridge.kt:443-484 | Where both sockets give what they have, in any chunks that fit the buffer, take what they are offered and then end, every byte is read from either peer and written to the other, in order, and the connection is closed as done. |
| `BridgeLive.ClientIsAnswered` | app/src/main/java/app/smugly/tunnel/MiniSlipstreamSocksBridge.kt:263-343 | Where the client's socket gives some bytes and takes what it is offered, one event writes what waited and every answer that the conversation calls for, and closes exactly when the client is dropped. |
| `BridgeLive.ClosingIsFlushed` | app/src/main/java/app/smugly/tunnel/MiniSlipstreamSocksBridge.kt:267-270 | A connection that is to be closed is closed once what waited has been written. |
| `BridgeLive.ServerIsAnswered` | app/src/main/java/app/smugly/tunnel/MiniSlipstreamSocksBridge.kt:272-277 | Where the server's socket gives some bytes and both take what they are offered, one event writes every frame the replies call for; a failure is reported in these octets and closes, a grant goes to the client with all that was held back. |
| `BridgeLive.ClientHangsUp` | app/src/main/java/app/smugly/tunnel/MiniSlipstreamSocksBridge.kt:289-290 | A handshaking client that hangs up or throws is closed for that. |
| `BridgeLive.ServerHangsUp` | app/src/main/java/app/smugly/tunnel/MiniSlipstreamSocksBridge.kt:369-370 | A handshaking server that hangs up has failed and the client is told so; one that throws closes at once. |
| `BridgeLive.ConnectActs` | app/src/main/java/app/smugly/tunnel/MiniSlipstreamSocksBridge.kt:244-258 | A finished connect puts these octets on their way; a failed one is reported in these, but only where nothing else waits for the client, and closed. |
| `BridgeConn.Conn.ReadClientHandshake` | app/src/main/java/app/smugly/tunnel/MiniSlipstreamSocksBridge.kt:288-343 | What there is room for is read, every message so far is answered and every answer offered to the socket at once, exactly as `BridgeIo.ClientHeard` says, and so is how it ends; the connection is then where the client's bytes put it, or closed for a cause that has happened. |
| `BridgeConn.Conn.ReadUpstreamHandshake` | app/src/main/java/app/smugly/tunnel/MiniSlipstreamSocksBridge.kt:367-425 | The same for the server's bytes, exactly as `BridgeIo.ServerHeard` says: a server that hangs up has failed, and one that grants the request is relayed for at once. |
| `BridgeConn.Conn.OnConnectable` | app/src/main/java/app/smugly/tunnel/MiniSlipstreamSocksBridge.kt:244-258 | A finished connect puts the upstream greeting on its way and awaits the answer; a failed one fails the connection; anything else changes nothing. What is written, and whether it closes, is exactly `BridgeIo.ConnectWire`. |
| `BridgeConn.Conn.FailUpstream` | app/src/main/java/app/smugly/tunnel/MiniSlipstreamSocksBridge.kt:427-439 | The failure is reported exactly when nothing else was pending for the client, and the connection stays open only while something is. |
| `BridgeConn.Conn.RelayTurn` | app/src/main/java/app/smugly/tunnel/MiniSlipstreamSocksBridge.kt:443-484 | Exactly what is read from either peer, written to either and kept back (`BridgeIo.RelayWire`), under any partial reads and writes; both streams stay whole, and the turn completes the relay exactly when both peers have ended and nothing waits, which means full delivery. |
| `BridgeConn.Conn.PassOn` | app/src/main/java/app/smugly/tunnel/MiniSlipstreamSocksBridge.kt:475-482 | Each end is passed on exactly when everything before it has been written; both ends and empty buffers close the connection. |
| `BridgeConn.Conn.Delivered` | app/src/main/java/app/smugly/tunnel/MiniSlipstreamSocksBridge.kt:443-484 | Written plus pending equals what each peer is owed, and an end passed on means all of it was written. |
| `BridgeConn.Conn.Service` | app/src/main/java/app/smugly/tunnel/MiniSlipstreamSocksBridge.kt:263-284 | A socket event reads, writes and ends exactly as `BridgeIo.ServiceWire` says for whatever the sockets do; it keeps the whole invariant, or closes for a cause that has happened, as complete only after full delivery. |
| `BridgeConn.Conn.MarkHalfClosed` | app/src/main/java/app/smugly/tunnel/MiniSlipstreamSocksBridge.kt:561-566 | The half-closed count grows once per connection. |
| `Bridge.Bridge.CloseConn` | app/src/main/java/app/smugly/tunnel/MiniSlipstreamSocksBridge.kt:588-596 | A connection leaves the registry once and is uncounted once, and stops counting as half-closed. |
| `Bridge.Bridge.Service` | app/src/main/java/app/smugly/tunnel/MiniSlipstreamSocksBridge.kt:263-284 | The connection is serviced, exactly as `BridgeIo.ServiceWire` says; no other is touched, all counters stay exact, and it is removed exactly when the event closed it. |
| `Bridge.Bridge.Connectable` | app/src/main/java/app/smugly/tunnel/MiniSlipstreamSocksBridge.kt:244-258 | The same for a connect event: a finished, a failed and a pending connect each leave the connection as they should, and only a failed one can remove it. |
| `BridgeFailures.ReachUnreported` | app/src/main/java/app/smugly/tunnel/MiniSlipstreamSocksBridge.kt:427-439 | A run from the start in which the upstream server cannot be reached and the client, with a reply still pending, is never told. |
| `Bridge.Bridge.EvictLeastRecentlyActive` | app/src/main/java/app/smugly/tunnel/MiniSlipstreamSocksBridge.kt:555-559 | The one evicted has the oldest activity of all. |
| `Bridge.Bridge.AcceptOne` | app/src/main/java/app/smugly/tunnel/MiniSlipstreamSocksBridge.kt:223-242 | One client in, at most one out, out exactly when the limit was reached. |
| `Bridge.Bridge.OnAccept` | app/src/main/java/app/smugly/tunnel/MiniSlipstreamSocksBridge.kt:223-242 | After any batch of arrivals the count is exact and never beyond the limit. |
| `Bridge.Bridge.CloseEverything` | app/src/main/java/app/smugly/tunnel/MiniSlipstreamSocksBridge.kt:213-220 | When the loop ends nobody is left and both counters are zero. |
| `Base64.DecodeBase64` | shared/src/commonMain/kotlin/app/smugly/subscription/SubscriptionParser.kt:338-355 | The unmasked 32-bit accumulator yields exactly the octets of the letters, for every input; null on a foreign character or empty output. |
| `Base64.DecodeInvertsEncode` | shared/src/commonMain/kotlin/app/smugly/subscription/SubscriptionParser.kt:338-363 | Every text that is an encoding of `b` up to alphabet, padding and blanks decodes to `b`, and an empty one to null (sections 4 and 5 of RFC 4648). |
| `Base64.BlanksAnywhere` | shared/src/commonMain/kotlin/app/smugly/subscription/SubscriptionParser.kt:343 | Inserting an equals sign, newline, return, blank or tab anywhere changes nothing. |
| `Base64.EitherAlphabet` | shared/src/commonMain/kotlin/app/smugly/subscription/SubscriptionParser.kt:358-364 | A minus may stand for a plus and an underscore for a slash, letter by letter. |
| `Base64.DecodesExactly` | shared/src/commonMain/kotlin/app/smugly/subscription/SubscriptionParser.kt:342-355 | A text decodes exactly if it holds nothing but letters of either alphabet and those five characters, and two letters at least. |
| `Base64.EncodeQuantum` | shared/src/commonMain/kotlin/app/smugly/subscription/SubscriptionParser.kt:346-351 | Three octets are one number of 24 bits whose base-64 digits are the letters; one or two are filled up with zero bits and padded (section 4 of RFC 4648). |
| `Base64.Alphabet` | shared/src/commonMain/kotlin/app/smugly/subscription/SubscriptionParser.kt:358-364 | The 64 letters by code point. |
| `Base64.Accumulated` | shared/src/commonMain/kotlin/app/smugly/subscription/SubscriptionParser.kt:346-350 | Overflow and sign of the accumulator never reach the eight bits taken from it. |
| `TunnelToml.WithForcedTopLevelKey` | shared/src/commonMain/kotlin/app/smugly/TunnelToml.kt:28-42 | The loop builds the forced line followed by the old lines rewritten. |
| `TunnelToml.Q` | shared/src/commonMain/kotlin/app/smugly/TunnelToml.kt:45-57 | The loop builds the quoted and escaped value. |
| `TunnelToml.ReadEscaped` | shared/src/commonMain/kotlin/app/smugly/TunnelToml.kt:45-57 | A TOML reader gets the value back from what was written if and only if it holds no control character other than tab, newline and return; otherwise the string is invalid (TOML v1.0.0, String). |
| `ForcedKey.ForcedMeansWanted` | shared/src/commonMain/kotlin/app/smugly/TunnelToml.kt:28-42 | To a TOML reader the result is the forced statement with the asked value, every other statement before the first table with its text and place, and the same tables, if and only if the value holds no control character but tab, newline and return and the code's line test finds every line of the statements that assign the key (but blanks and comments) and no line of any other. |
| `ForcedKey.RewriteReads` | shared/src/commonMain/kotlin/app/smugly/TunnelToml.kt:33-41 | For the old lines alone: they say what is wanted of them if and only if the line test agrees with the reader. |
| `ForcedKey.SimpleAgrees` | shared/src/commonMain/kotlin/app/smugly/TunnelToml.kt:33-41 | For a bare key the line test agrees on every configuration whose statements before the first table take one line each and have an unquoted key or a bare one in quotes of either kind. |
| `ForcedKey.UnquotedAgrees` | shared/src/commonMain/kotlin/app/smugly/TunnelToml.kt:34-39 | On a line with no quote before its first sign, the test finds a bare key exactly if a TOML reader does. |
| `ForcedKey.QuotedAgrees` | shared/src/commonMain/kotlin/app/smugly/TunnelToml.kt:36-38 | On a line whose key is a bare one in quotes the test and the reader see the same key too. |
| `ForcedKey.ForcedLineReads` | shared/src/commonMain/kotlin/app/smugly/TunnelToml.kt:30 | A reader takes the forced line for an assignment to a path exactly if the key's text names that path. |
| `TomlReader.BareNamesItself` | shared/src/commonMain/kotlin/app/smugly/TunnelToml.kt:28-30 | A key's text names the key of that very text exactly if it is a bare key (TOML v1.0.0, Keys). |
| `ForcedKey.ForcedTwice` | shared/src/commonMain/kotlin/app/smugly/TunnelToml.kt:28-42 | For a bare key and any text, forcing twice reads as forcing the second time alone, one line further down. |
| `ForcedKeyFailures.ForeignLineLost` | shared/src/commonMain/kotlin/app/smugly/TunnelToml.kt:36-39 | A line that assigns a quoted key with an equals sign after ours is commented out. |
| `ForcedKeyFailures.NestedArrayDuplicates` | shared/src/commonMain/kotlin/app/smugly/TunnelToml.kt:35-37 | A text with a nested array, written out with its result: a line of the array passes for a table header, and the result assigns the key twice. |
| `ForcedKeyFailures.LongValueLeftBehind` | shared/src/commonMain/kotlin/app/smugly/TunnelToml.kt:36-40 | A text whose value runs over several lines, written out: only the first line goes, and the result is no TOML. |
| `ForcedKeyFailures.ElementLost` | shared/src/commonMain/kotlin/app/smugly/TunnelToml.kt:36-40 | A text with an array of strings, written out with its result: an element passes for an assignment of ours and is commented out. |
| `ForcedKeyFailures.ControlInValue` | shared/src/commonMain/kotlin/app/smugly/TunnelToml.kt:45-57 | A backspace in the value makes any result unreadable. |
| `ForcedKeyFailures.NoKeys` | shared/src/commonMain/kotlin/app/smugly/TunnelToml.kt:28-30 | The empty text and one with a blank inside name no key; a quoted text names what it quotes. |
| `WindowsSettings.Encode` | shared/src/desktopMain/kotlin/app/smugly/desktop/WindowsConnectionSettings.kt:42-70 | The cursor writes exactly header, three counted strings and 32 zeros. |
| `WindowsSettings.Decode` | shared/src/desktopMain/kotlin/app/smugly/desktop/WindowsConnectionSettings.kt:72-82 | Total on every array and never beyond its end, whatever lengths it claims. |
| `WindowsSettings.DecodeInvertsEncode` | shared/src/desktopMain/kotlin/app/smugly/desktop/WindowsConnectionSettings.kt:42-101 | Reading what was written, whatever follows the strings: version 0x46, the counter raised to at least 1, the flags and the same strings with each non-ASCII character a question mark. |
| `WindowsSettings.BlobOctets` | shared/src/desktopMain/kotlin/app/smugly/desktop/WindowsConnectionSettings.kt:56-69 | Octet by octet: version 0x46, counter, flags and lengths with the least significant octet first, the strings in ASCII, and 32 zeros. |
| `WindowsSettings.DecodesExactly` | shared/src/desktopMain/kotlin/app/smugly/desktop/WindowsConnectionSettings.kt:72-101 | A blob can be read exactly if its first two strings are there, with lengths that are not negative. |
| `WindowsSettings.AsciiSurvives` | shared/src/desktopMain/kotlin/app/smugly/desktop/WindowsConnectionSettings.kt:52-54 | A string survives exactly when it is ASCII. |
| `WindowsSettings.FlagsMean` | shared/src/desktopMain/kotlin/app/smugly/desktop/WindowsConnectionSettings.kt:48-51 | Bit by bit: direct always, proxy when enabled or already among the extra flags, a script exactly with a non-blank address, never WPAD, the rest as given. |
| `WindowsSettings.ProxyShown` | shared/src/desktopMain/kotlin/app/smugly/desktop/WindowsConnectionSettings.kt:37-39 | A written blob shows the proxy as on exactly if it was asked for or among the extra flags. |
| `WindowsSettings.ProxyUnasked` | shared/src/desktopMain/kotlin/app/smugly/desktop/WindowsConnectionSettings.kt:48-51 | With the proxy flag among the extra ones, a proxy that was not asked for shows as on. |
| `WindowsSettings.CounterAdvances` | shared/src/desktopMain/kotlin/app/smugly/desktop/WindowsConnectionSettings.kt:84-87 | Each rewrite raises the counter by one, and starts at 1 where there was no readable blob, a negative counter or the largest one. |
| `WindowsSettings.Cursor.GetLenString` | shared/src/desktopMain/kotlin/app/smugly/desktop/WindowsConnectionSettings.kt:94-101 | The counted string at the cursor, or null where the length is negative or too large. |

## Left out

- Colours and rotations of the red-black tree: its library is not part of this model; insertion is at the leaf the loop finds, and erasure is that of a plain search tree.
- Allocation failures, logging, statistics counters and the destructors.
- In-place byte swaps of the two scratch header words in `hev_mapped_dns_handle`: the counts and flags are read and written in network order directly. A query shorter than its header is handled, but nothing is said of the bytes of its reply.
- MappedDns.MappedDns.New: asks for a positive `max`; the source also accepts zero and less, and with zero its first find erases the node it has just added.
- MappedDns.MappedDns.Find: assumes that allocating a node succeeds.
- DnsReply.ReplyIsWellFormed: question names are uncompressed; the code takes a compression pointer in a question (section 4.1.4 of RFC 1035) for a label of 192 bytes or more.
- DnsHandle.DotName: asks that the name's first byte is there, as the code does by reading it unchecked.
- DnsHandle.Handle: asks for buffers that hold a header, and that every question counted starts at a byte that is there; one spare byte behind the query always suffices (`DnsWire.SpareByte`), and `DnsReply.ReadsPastEnd` says when it is needed.
- DnsReply.AnswersResolve: requires a contiguous netmask and a network with no host bits, without which the host part of an address is not the index.
- TcpSession.TcpSession.Recv: lwIP delivers no empty pbufs and nothing after its end of stream; the 16-bit wrap of a chain's total length is not modelled.
- TcpSession.TcpSession.Sent: lwIP acknowledges only bytes it was given.
- TcpSession.TcpSession.Splice: the yielder, the mutex and scheduling are the script of turns; callbacks run only between turns.
- UdpSession.UdpSession.ReplySource: the conversion of a plain peer's address and the bounds check on the address pointer.
- UdpSession.UdpSession.FwdF: `sendmmsg` accepts at most what it is offered.
- IcmpReject.PortUnreachablePacket: the summation branch for an odd length is proved right but is dead here, since header lengths are multiples of four; handing the packet to the device is left out.
- SocksProtocol.ParseClientAuth: credentials are compared as bytes; decoding to text, with its replacement characters, and the host text of a request are left out.
- Reasons in parser errors and log lines.
- BridgeConn.Conn.Service: says what an event does, not that the selector delivers it. The interest sets are left out; so are the byte totals, when the activity time is touched, and the creation and stuck-buffer times that only the reaper reads.
- BridgeConn.Conn.Clock: reads after 1970, since zero stands for "not half-closed".
- Bridge.Bridge.ReapIdle: which connections are stale is left open; any set of them may be reaped.
- Starting the bridge, which turns blank settings into none, stopping it, and an old selector thread that outlives the half second that `stop` waits for it.
- TomlReader.Read: numbers, dates and booleans are kept as text, and values are not checked for trailing text. That a later table or dotted key under the same name clashes with the forced key is left out.
- ForcedKey.ForcedMeansWanted: asks for a text that names a key; `ForcedKey.ForcedLineReads` covers all others.
- TunnelToml.WithForcedTopLevelKey: characters are Unicode scalar values rather than UTF-16 units, which no test in the code can tell apart.
- WindowsSettings.Encode: a blob whose size exceeds the range of Int is refused at once rather than by the exception that allocating or filling the buffer throws.
- Subscription parsing beyond base64, config rendering, the other bridges, resolver probing, services and user interface.

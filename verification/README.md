# Verified model of the ECH gRPC proxy

This project models the logic of a proxy client and its relay server and proves what they
promise each other and their users. A local TCP connection enters the client as an HTTP proxy
request or a SOCKS5 handshake, travels as frames of one bidirectional gRPC stream to the server,
and leaves as a TCP connection to the target. Around that path stand the DNS HTTPS/SVCB reader
that finds ECH configurations, their expiring cache, the IP range index of the router, and the
pool of backend channels.

`dafny verify dfyconfig.toml` checks the whole project.

## How the model is laid out

- **The tunnel** (`Frames`, `Channel`, `Relay`): client receive loop, uploader task, server main
  loop and target reader task as one transition system. Each direction of the gRPC stream is a
  bounded queue (64 frames) and a reliable FIFO that may be cut at any moment, losing a suffix and
  showing the receiver an error or an end of stream. Policy check, resolution and connection are
  one success or failure. Reads, partial writes, queueing, transport moves, timeouts, aborts and
  failures are separate steps, so every interleaving of the tasks is a run. `RelayInvariant` gives
  the inductive invariant, one part for each side, `RelayTheorems` what every reachable state
  satisfies, `RelayAlone` what each side keeps against a peer that does anything, `RelayVerdict` how each side ends
  as a function of what it met, `RelayProgress`
  deadlock freedom and termination, `RelayClean` what fault-free runs end with, `RelayExamples`
  runs that show where less is promised, and `RelayLimits` and `RelayTimer` exactly when those
  promises are kept. `RelayTasks` is the same code in place:
  fields, loops and writes, each method proved to be steps of the transition system.
- **DNS** (`DnsParser`, `DnsMessage`, `DnsConverse`, `Splitting`, `DnsQuery`): the response parser
  as functions and as offset-advancing loops, an independent wire format for abstract responses
  (sections 4.1.1 to 4.1.4 of RFC 1035, section 2.2 of RFC 9460), the proof that the parser accepts
  exactly the messages of that form as far as it reads, and the query builder. Bit masks on length
  and flag fields are written as comparisons; `MaskTests` shows they are the same tests.
- **ECH cache** (`EchCache`, `EchBootstrap`): the map behind the mutex against a log of all puts.
- **HTTP** (`HttpText`, `HttpRequest`, `HttpTarget`, `HttpRewrite`, `HttpReading`, `HttpHosts`,
  `OpenWire`, `OpenFrame`, `HeaderReader`): Unicode strings with the exact White_Space property,
  request parsing and the absolute-form rewrite, what requests and targets read as, and the bytes
  of the protobuf frame that carries the result.
- **SOCKS5** (`ByteStreams`, `Socks5`, `Socks5Refusals`), **IP ranges** (`IpRanges`; `max` is the highest address, so
  one module serves the 32-bit and the 128-bit copy of the code), **pool** (`BackendPool`).
- **EndToEnd** joins ingress and relay: what the target receives of what the local side sent.

## Where code and documents differ

The model follows the code.

- The server's README speaks of 32 KiB chunks from the target; the code reads 64 KiB.
- The design says any I/O error sends a Reset. The client sends one exactly when reading the local
  side failed and the uploader lived to send it (`ResetReportsReadError`). A client whose receive
  loop fails returns without one and never aborts its uploader (`UploaderOutlivesFailure`;
  `AbortFollowsSuccess` says exactly when an uploader can still be aborted).
- The design says each channel carries up to `max_streams_per_channel` streams. The limit is on
  the pool as a whole: one channel can end up with all of them (`ChannelLimitIsNotKept`), and the
  limit per channel holds exactly for pools of one channel (`ChannelLimitHolds`).
- Round robin is even in every window exactly when the number of channels divides 2^64
  (`EvenExactlyWhenSeamless`); otherwise two counts can differ by 2 around the wrap.
- Section 3.2.2 of RFC 9112 has a proxy replace every received Host by one made from the target; the
  code forwards the Hosts it received and makes one only if there is none. For `http://a/` with
  `Host: b` the origin server is told `b` (`ReceivedHostMisleads`). The rule is met exactly when at
  most one Host was received and it names the target or, without one, the target's host can be
  written as a Host (`HostRuleIsMet`).
- The synthesized Host of a bracketed address has no brackets (`BracketsAreLost`); `HostParsesBack`
  gives the exact condition under which the Host names the same place.
- Only client frames restart the server's idle timer, so it can cut a download short
  (`IdleTimerCutsDownload`). A download survives exactly when the target reader's HalfClose is
  queued before the main loop's Reset (`TimeoutsSpareDownload`), that is, when the reader has
  finished by the time the Reset is queued (`ResetAfterReader`). At the moment the timer fires it is
  sure to survive exactly when the reader has finished (`TimerSparesExactly`).
- The server's Reset need not be its last frame (`ResetIsNotAlwaysLast`); what it has sent is final
  exactly when the reader or the stream is gone (`ResetIsLast`).
- When the target closes first the client aborts its uploader. Fault-free runs are sure to complete
  the upload exactly when there is nothing to upload beyond the first payload
  (`UploadIsSureOnlyIfEmpty`); `UploadAfterCompletion` says what a given run has written.

## Model

| member | source | states |
|---|---|---|
| `RelayInvariant.Reachable` | server/src/service.rs:76-229 | the invariant holds in every state any run of client, server, transport and environment can reach, whatever fails |
| `RelayInvariant.StepKeeps` | client/src/tunnel.rs:43-124 | every single step of every task, of the transport, and every failure keeps the invariant |
| `RelayTheorems.UpstreamPrefix` | client/src/tunnel.rs:76-100 | in every reachable state the target has received a prefix of the first payload followed by the bytes read locally |
| `RelayTheorems.UpstreamConserved` | server/src/service.rs:130-198 | until the stream is cut or the server gives up, written, in hand, in flight, queued and uploader-held bytes together are exactly the first payload and the bytes read, in order |
| `RelayTheorems.DownstreamPrefix` | client/src/tunnel.rs:102-121 | in every reachable state the local side has received a prefix of the bytes read from the target |
| `RelayTheorems.DownstreamConserved` | server/src/service.rs:142-166 | until the stream is cut or the client's loop ends, no target byte is lost, duplicated or reordered, although the reader shares its queue with the main loop and may be aborted holding a chunk |
| `RelayTheorems.UploadEndIsHonest` | server/src/service.rs:199-201 | when the server handles a HalfClose the target holds the first payload and every byte the local side will ever send |
| `RelayTheorems.DownloadEndIsHonest` | client/src/tunnel.rs:108-111 | the client shuts the local side down only after writing every byte the target will ever send |
| `RelayTheorems.OutputConforms` | server/src/service.rs:83-166 | run against each other: client output is Open Data* (HalfClose or Reset)?, with nothing before a good OpenResult; server output is empty, a Reset, a failed OpenResult, or a good one, sent after the whole first payload is written, and an interleaving of Data* (HalfClose or Reset)? with Pong* Reset? |
| `RelayAlone.ServerConforms` | server/src/service.rs:76-229 | against any client, whatever frames it sends and whenever it is cut off: the server's output obeys the grammar with pongs, a HalfClose comes after the whole target stream, a good OpenResult follows an Open whose payload is written, the target gets a prefix of the bytes received, and every target byte read is in the output or in the reader's hand |
| `RelayAlone.PingsAreAnswered` | server/src/service.rs:207-212 | against any client, while the stream lives and the server relays: its main loop has sent one pong for each ping received, in order and with its time, but for the one it is about to send |
| `RelayAlone.BadFrameIsLast` | server/src/service.rs:93-224 | against any client: a first frame that is no Open, and later the first Reset, second Open or empty frame, is the last frame the server handles, and the former is answered at most by a failed OpenResult |
| `RelayAlone.ClientConforms` | client/src/tunnel.rs:43-124 | against any server, whatever it answers and whenever it is cut off: the client's output obeys the grammar, nothing follows the Open before a good OpenResult, a HalfClose comes after the whole local stream, every local byte read is in the output or in the uploader's hand, and the local side gets a prefix of the data received, all of it once it is shut down |
| `RelayAlone.BadAnswerIsLast` | client/src/tunnel.rs:58-121 | against any server: an answer that is no good OpenResult, and later the first frame that is neither data nor a pong, is the last frame the client handles; after the former nothing but the Open has been sent |
| `RelayVerdict.ServerVerdict` | server/src/service.rs:76-229 | against any client: the main loop is over or ending exactly when something ended it, and all it has sent is a stated function of the frames it received and of what befell it: a failed OpenResult, a Reset or nothing before the relay starts, then one pong for each ping and a Reset unless the client ended or reset the stream |
| `RelayVerdict.ShutExactly` | server/src/service.rs:177-206 | against any client: the target is told that no more will come exactly when the tunnel was opened and a HalfClose or a Reset was handled or the stream ended or broke; while relaying, exactly when a HalfClose was |
| `RelayVerdict.ClientVerdict` | client/src/tunnel.rs:58-125 | against any server: the client has left exactly when a bad frame, a HalfClose, a failure or the end of the stream made it leave, and completion, end of stream or failure, the shutdown of the local side and the abort of the uploader are stated functions of the frames received and of what befell it |
| `RelayTheorems.NoProtocolError` | client/src/tunnel.rs:58-120 | run against each other neither side reaches its unexpected-first-frame, duplicate-OpenResult, late-Open or empty-frame branch, and no data meets a half-closed target |
| `RelayTheorems.LaterServerFrame` | server/src/service.rs:207-224 | after its first frame the server sends only data of 1 to 65536 bytes, half-closes, resets and pongs |
| `RelayTheorems.BoundedBacklog` | client/src/tunnel.rs:22-24 | at most 64 frames queued in each direction and at most 65 chunks read but not yet taken by the transport |
| `RelayProgress.StepDescends` | client/src/tunnel.rs:73-124 | one measure of unread bytes, chunks in hand, frames queued or in flight and phases drops on every step, faults included |
| `RelayProgress.RunsAreFinite` | server/src/service.rs:139-228 | no run is longer than the measure of where it starts |
| `RelayProgress.NeverStuck` | server/src/service.rs:139-228 | while any of the four tasks is alive some step other than a fault is possible |
| `RelayProgress.CanAlwaysFinish` | server/src/service.rs:139-228 | from every reachable state a run without further faults ends all four tasks |
| `RelayProgress.DownloadNeedsNoUpload` | server/src/service.rs:142-166 | from every reachable relaying state the target reader, the stream and the receive loop can complete the download by themselves, with the uploader and the main loop standing still |
| `RelayClean.CompleteDownload` | client/src/tunnel.rs:102-124 | a fault-free run that is over, or can only go on by a fault, leaves the local side with all of the target's bytes and a half-close |
| `RelayClean.UploadAfterCompletion` | client/src/tunnel.rs:108-123 | after such a run the target has been shut down and holds everything the uploader read but for a chunk it was aborted with, and the whole upload exactly when it had read to the end and lost nothing; the run-level refinement of `UploadIsSureOnlyIfEmpty` |
| `RelayExamples.UploadMayBeCutShort` | client/src/tunnel.rs:108-123 | for every first payload, upload and target: a fault-free run, over, with a complete download and nothing of the upload beyond the first payload written |
| `RelayExamples.IdleTimerCutsDownload` | server/src/service.rs:168-175 | the idle timer alone can end a tunnel in which the target is still sending; `RelayTimer` says which timeouts do |
| `RelayExamples.ResetIsNotAlwaysLast` | server/src/service.rs:227 | data can follow the Reset that ended the main loop, because the abort takes effect later; `RelayLimits.ResetIsLast` says when not |
| `RelayExamples.UploaderOutlivesFailure` | client/src/tunnel.rs:102-125 | after an error return the uploader still takes bytes from the local side; `RelayLimits.AbortFollowsSuccess` says when it is aborted |
| `RelayLimits.ResetIsLast` | server/src/service.rs:227 | for every reachable state after the main loop: no continuation sends another frame exactly when the target reader is gone or the stream is |
| `RelayLimits.AbortFollowsSuccess` | client/src/tunnel.rs:102-124 | for every reachable state after the receive loop: some continuation aborts the uploader exactly when the loop did not fail and the uploader is alive |
| `RelayLimits.AbortReachesReader` | server/src/service.rs:227 | for every reachable state with a live target reader: it can be aborted exactly when the main loop is over |
| `RelayLimits.ResetReportsReadError` | client/src/tunnel.rs:92-96 | in every run the client has sent a Reset exactly when a read of the local side failed and the uploader finished |
| `RelayLimits.UploadIsSureOnlyIfEmpty` | client/src/tunnel.rs:108-123 | for every first payload, upload and target: all finished fault-free runs write the whole upload exactly when there is none beyond the first payload |
| `RelayTimer.TimeoutsSpareDownload` | server/src/service.rs:168-175 | for every run whose only faults are timeouts, once the client is done: it completed, with all of the target's bytes, exactly when the reader's HalfClose was queued before any Reset |
| `RelayTimer.ResetAfterReader` | server/src/service.rs:168-175 | whatever follows the queueing of the main loop's Reset, the download is complete exactly when the target reader had finished by then |
| `RelayTimer.LateTimerSparesDownload` | server/src/service.rs:168-175 | a timer that fires after the target reader has finished never costs a byte of the download |
| `RelayTimer.TimerSparesExactly` | server/src/service.rs:168-175 | when the timer fires after a run whose only faults were timeouts: every way on that ends the client's loop completes the download exactly when the target reader has finished |
| `RelayTasks.Tunnel.constructor` | client/src/tunnel.rs:43-49 | the tunnel starts with the Open frame queued and both sides waiting |
| `RelayTasks.Tunnel.UploaderReads` | client/src/tunnel.rs:77-98 | one read becomes a Data frame of exactly the bytes read, a HalfClose, or a Reset |
| `RelayTasks.Tunnel.UploaderSends` | client/src/tunnel.rs:82-95 | the frame is queued, or the uploader stops because the stream is gone |
| `RelayTasks.Tunnel.UploadToEnd` | client/src/tunnel.rs:76-100 | the uploader loop is a fault-free run that sends every remaining local byte in order and then a HalfClose, however the reads split |
| `RelayTasks.Tunnel.ReceiveServerFrame` | client/src/tunnel.rs:58-121 | the answer to Open and the receive loop's match are the client's receive step |
| `RelayTasks.Tunnel.WriteAllLocal` | client/src/tunnel.rs:105-107 | write_all is a run that writes exactly the chunk, in order, however the socket splits it |
| `RelayTasks.Tunnel.ReceiveClientFrame` | server/src/service.rs:96-224 | the first-frame check and the main loop's match are the server's receive step |
| `RelayTasks.Tunnel.ClientStreamEnds` | server/src/service.rs:177-190 | end of stream and transport error before and after Open are the server's end step |
| `RelayTasks.Tunnel.IdleTimeout` | server/src/service.rs:168-175 | the timer queues a Reset and ends the tunnel |
| `RelayTasks.Tunnel.Dialed` | server/src/service.rs:104-121 | a refused or failed target answers with a failed OpenResult |
| `RelayTasks.Tunnel.WriteAllTarget` | server/src/service.rs:130-137 | the first payload, or a data frame, is written whole and in order before OpenResult or the next frame |
| `RelayTasks.Tunnel.MainSends` | server/src/service.rs:253-266 | a send of the main loop queues the frame or is ignored, and the loop goes on, spawns the reader, or aborts it |
| `RelayTasks.Tunnel.ReaderReads` | server/src/service.rs:142-157 | one read of the target becomes a Data frame of exactly those bytes, a HalfClose, or a Reset |
| `RelayTasks.Tunnel.ReaderSends` | server/src/service.rs:147-163 | the reader's frame is queued, or the reader stops |
| `Channel.ReceiveKeeps` | server/src/service.rs:61-72 | the transport delivers the next frame of the log: queue, flight and receipts form one FIFO |
| `DnsMessage.ParseInvertsEncode` | client/src/ech_tls.rs:235-315 | parsing the wire form of any well-formed response gives the first key-5 value of the first type-65 answer that has one, with that answer's own TTL, 300 s if that is zero, and fails exactly when there is none |
| `DnsConverse.AcceptedIsEncoded` | client/src/ech_tls.rs:235-315 | the converse for every accepted message: response flag and no error, QDCOUNT questions and then answers in wire form up to the one used, no ech value in an earlier answer, and the result is that answer's first key-5 value and its TTL, 300 s if that is zero |
| `DnsConverse.EncodedIsAccepted` | client/src/ech_tls.rs:235-315 | every message of that form is accepted with that result, whatever follows the value and whatever follows its answer |
| `DnsConverse.AcceptedExactly` | client/src/ech_tls.rs:235-315 | over all byte sequences the parser accepts exactly the messages of that form |
| `DnsMessage.SkipEncodedName` | client/src/ech_tls.rs:325-351 | skipping an encoded name, closed by the root label or a compression pointer, stops just after it |
| `DnsMessage.FindEncodedParam` | client/src/ech_tls.rs:296-314 | the parameter loop finds the first key-5 value in any order of parameters |
| `DnsParser.ParseIsSound` | client/src/ech_tls.rs:235-315 | on every byte sequence an accepted value is a contiguous slice behind the header of a key-5 parameter, inside bytes laid out as a type-65 record whose TTL is reported, 300 s for zero; `DnsConverse.AcceptedIsEncoded` says which record |
| `DnsParser.ParseIsStable` | client/src/ech_tls.rs:235-383 | bytes appended to an accepted message change nothing |
| `DnsParser.SkipNameInner` | client/src/ech_tls.rs:325-351 | the label loop terminates, stays in range, cannot overflow usize, and computes the specified position or error |
| `DnsParser.ReadU16At` | client/src/ech_tls.rs:362-374 | big-endian read that advances, or a truncation error that does not |
| `DnsParser.ReadU32At` | client/src/ech_tls.rs:376-384 | the same for four bytes |
| `DnsParser.ParseRdata` | client/src/ech_tls.rs:288-315 | the RDATA loop computes the specified slice or error and never underflows `end - offset` |
| `DnsParser.FindInAnswers` | client/src/ech_tls.rs:257-285 | the answer loop computes the specified result or error |
| `DnsParser.ParseResponse` | client/src/ech_tls.rs:235-286 | the whole parser, loops and early returns, computes the specified result or error |
| `DnsQuery.BuildHttpsQuery` | client/src/ech_tls.rs:209-233 | accepts exactly names of 1 to 253 octets whose labels, trailing dots ignored, have 1 to 63 octets, and emits their query |
| `DnsQuery.QueryAsksOnce` | client/src/ech_tls.rs:209-233 | the query is a 12-octet header, given octet by octet, that asks one question with recursion, and that question, with nothing after it |
| `DnsQuery.TrimTakesDots` | client/src/ech_tls.rs:222 | all dots at the end of a name are ignored and nothing else |
| `DnsQuery.SkipperMeetsBuilder` | client/src/ech_tls.rs:209-233 | the encoded name takes the trimmed name's length and 2 more, at most 255 octets, and skipping it from offset 12 stops 4 octets before the end |
| `DnsQuery.QueryDecodes` | client/src/ech_tls.rs:222-229 | decoding the query's labels gives the name without trailing dots |
| `DnsQuery.QueryIsInjective` | client/src/ech_tls.rs:222-229 | two accepted names give the same query exactly when they differ at most in trailing dots |
| `EchCache.CacheRefinesLog` | client/src/ech_tls.rs:163-189 | over every interleaving of puts and gets under a clock that never goes back, a lookup gives the latest put for the key exactly while its clamped lifetime lasts |
| `EchCache.LifetimeIsNearest` | client/src/ech_tls.rs:178 | a lifetime lies between 30 s and 3600 s and no other permitted one is as near to what was asked for |
| `EchCache.Cache.Get` | client/src/ech_tls.rs:163-175 | returns what the log says, and evicting changes what no later reader of any key sees |
| `EchCache.Cache.Put` | client/src/ech_tls.rs:177-189 | replaces the key's entry for its clamped lifetime and touches no other key |
| `EchBootstrap.BootstrapIsServed` | client/src/ech_tls.rs:133-135 | the ech value of any well-formed response, put into the cache, is served to every later lookup until its lifetime ends and not after |
| `EchBootstrap.RecordIsServed` | client/src/ech_tls.rs:273-278 | in terms of the record that yields the value, wherever it stands: its value is served for its own TTL, 300 s if zero, but never less than 30 s nor more than 3600 s |
| `EchBootstrap.ZeroTtlLivesFiveMinutes` | client/src/ech_tls.rs:273-278 | if the record that yields the value, wherever it stands among the answers, has TTL zero, the value is kept for 300 s |
| `HttpRequest.ParseRequestText` | client/src/ingress_http.rs:114-143 | the header loop computes the specified parts or the first error |
| `HttpRequest.RewriteAbsoluteRequest` | client/src/ingress_http.rs:231-263 | the appending loop with its has_host flag produces the text of the rewritten request |
| `HttpTarget.TargetReads` | client/src/ingress_http.rs:179-197 | every target made of http in any case, `://`, an authority without a slash and a path that may be missing reads as the authority's host and port and that path or `/` |
| `HttpTarget.TargetIsRead` | client/src/ingress_http.rs:179-197 | only such targets are accepted, with the parts as written |
| `HttpTarget.OtherTargets` | client/src/ingress_http.rs:180-185 | a target is refused as not absolute exactly when it holds no `://`, and for its scheme exactly when what precedes the first one is not http in any case |
| `HttpTarget.AuthorityReads` | client/src/ingress_http.rs:199-229 | an authority is accepted as a host and a port exactly when it is written in one of four ways: bracketed or plain, with a port or with the default |
| `HttpTarget.PortReads` | client/src/ingress_http.rs:210-218 | a port is decimal digits, possibly after a plus sign, up to 65535 |
| `HttpTarget.NumberReads` | client/src/ingress_http.rs:217-219 | digits are leading zeros and the shortest form of their value |
| `HttpTarget.CaseIsIgnored` | client/src/ingress_http.rs:183 | names, methods and schemes are compared up to the case of ASCII letters |
| `HttpTarget.HeaderNames` | client/src/ingress_http.rs:243-250 | the proxy's own headers are Proxy-Authorization and Proxy-Connection, and the Host is Host, in any case |
| `HttpReading.RequestReads` | client/src/ingress_http.rs:114-143 | a text of CRLF-free lines closed by an empty line is accepted exactly when the first is a request line and every other a header, and reads as those in order |
| `HttpReading.RequestIsRead` | client/src/ingress_http.rs:115-119 | only such texts are accepted |
| `HttpReading.RequestLineReads` | client/src/ingress_http.rs:121-127 | words apart by any white space: three, the last one a version, or the error of the first that is missing |
| `HttpReading.HeaderReads` | client/src/ingress_http.rs:131-134 | a line is split at its first colon, and the white space around name and value is ignored |
| `HttpReading.HeaderRefused` | client/src/ingress_http.rs:131-133 | a line is refused exactly when it has no colon |
| `HttpRewrite.RewriteThenParse` | client/src/ingress_http.rs:231-263 | for every accepted absolute-form request: its target reads as http in any case, `://`, an authority and a path, and the rewritten text parses to the same method and version, that path or `/` if none was written, the original headers in order without the proxy's own, and one Host made from the authority's host and port exactly when none was there |
| `HttpRewrite.ForwardedInOrder` | client/src/ingress_http.rs:242-252 | a header at any place is dropped exactly when it is named Proxy-Authorization or Proxy-Connection in any case, and the others keep their order |
| `HttpRewrite.HostParsesBack` | client/src/ingress_http.rs:199-229 | for every accepted target the synthesized Host parses back to the same host and port exactly when the host is non-empty and not opened by a bracket, the port is not 0, and a host written without its port does not end like one with a port |
| `HttpRewrite.ColonFreeHostParsesBack` | client/src/ingress_http.rs:254-259 | in particular for every unbracketed host without a colon |
| `HttpRewrite.BracketsAreLost` | client/src/ingress_http.rs:204-215 | the Host made for `http://[::1]/` parses to host `:` and port 1 |
| `HttpHosts.HostRuleIsMet` | client/src/ingress_http.rs:242-260 | for every accepted absolute-form request: exactly one Host is sent and it names the target, exactly when at most one was received and it names the target or, none having been received, the target's host can be written as a Host |
| `HttpHosts.HostsNameTarget` | client/src/ingress_http.rs:242-260 | for every accepted absolute-form request: all Hosts sent name the target exactly when those received do or, none having been received, the target's host can be written as a Host |
| `HttpHosts.OneHostIsSent` | client/src/ingress_http.rs:242-260 | for every accepted absolute-form request: exactly one Host is sent exactly when at most one was received |
| `HttpHosts.ReceivedHostMisleads` | client/src/ingress_http.rs:248-251 | the request for `http://a/` with `Host: b` is forwarded with that Host, which names `b` |
| `HttpText.DecimalParses` | client/src/ingress_http.rs:257 | a displayed port reads back as the same port |
| `HttpText.LinesJoin` | client/src/ingress_http.rs:119 | splitting at CRLF undoes joining with it |
| `OpenFrame.OpenFrameFits` | client/src/tunnel.rs:144-152 | for every absolute-form header of L bytes, L at most 65536, the bytes of the Open frame are at most 2 L - 1 and so fit MAX_MESSAGE_SIZE |
| `OpenFrame.ConnectFrameFits` | client/src/ingress_http.rs:50-63 | the Open frame of every accepted CONNECT request fits too |
| `OpenFrame.HeadersGrow` | client/src/ingress_http.rs:251 | rewritten headers take at most one byte more each |
| `OpenWire.FrameOverhead` | proto/tunnel/v1/tunnel.proto:29-33 | tags and lengths of an Open frame take at most 16 bytes |
| `OpenWire.OpenFrameReads` | proto/tunnel/v1/tunnel.proto:9-33 | the bytes of an Open frame, in the field numbers and types of the protocol, read back as its host, port and first payload |
| `HeaderReader.ReadHeader` | client/src/ingress_http.rs:90-104 | returns the shortest prefix ending in CRLF CRLF within 64 KiB and leaves the rest unread; otherwise reports which limit was met |
| `HeaderReader.HeaderIsDetermined` | client/src/ingress_http.rs:90-104 | the header depends only on its own bytes |
| `Socks5.HandshakeReads` | client/src/ingress_socks5.rs:90-202 | a well-formed greeting, accepted credentials and CONNECT to a non-zero port yield the encoded user, host and port, the replies 5 2 and 1 0, and leave the following bytes |
| `Socks5.OpenHandshakeReads` | client/src/ingress_socks5.rs:99-129 | the same without authentication where allowed and offered, with the reply 5 0 |
| `Socks5.HandshakeConsumes` | client/src/ingress_socks5.rs:90-202 | a handshake succeeds only on such an encoding and consumes exactly it |
| `Socks5Refusals.GreetingIsRefused` | client/src/ingress_socks5.rs:104-112 | a greeting without an acceptable method is answered 5 255 |
| `Socks5Refusals.OtherVersionIsRefused` | client/src/ingress_socks5.rs:91-94 | another SOCKS version gets no answer |
| `Socks5Refusals.CredentialsAreRefused` | client/src/ingress_socks5.rs:131-148 | credentials of another version, or not accepted, are answered 1 1; those that are not UTF-8 get no answer |
| `Socks5Refusals.DefaultUserIsNeeded` | client/src/ingress_socks5.rs:121-129 | without a known default user the open method fails after its reply |
| `Socks5Refusals.RequestHeadIsRefused` | client/src/ingress_socks5.rs:159-192 | another version or reserved byte gets no answer, another command code 7, another address type code 8, in ten octets |
| `Socks5Refusals.ZeroPortIsRefused` | client/src/ingress_socks5.rs:195-199 | port 0 is answered with code 4, for every host |
| `Socks5Refusals.NameIsRefused` | client/src/ingress_socks5.rs:178-183 | a domain that is not UTF-8 gets no answer |
| `Socks5Refusals.RequestIsRefused` | client/src/ingress_socks5.rs:63-65 | in the whole handshake the reply to the request follows the replies that accepted greeting and credentials |
| `Socks5Refusals.HandshakeCutShort` | client/src/ingress_socks5.rs:90-202 | a handshake cut short anywhere fails for want of input, with the replies to what it had sent in full |
| `Socks5.NegotiateAuth` | client/src/ingress_socks5.rs:90-113 | reads, replies and leaves what the greeting's specification says |
| `Socks5.ReadSocksString` | client/src/ingress_socks5.rs:151-156 | a length byte and that many bytes of UTF-8, or an error |
| `Socks5.AuthenticateUser` | client/src/ingress_socks5.rs:115-149 | reads, replies and leaves what the authentication's specification says |
| `Socks5.ReadConnectRequest` | client/src/ingress_socks5.rs:158-202 | reads, replies and leaves what the request's specification says |
| `Socks5.RunHandshake` | client/src/ingress_socks5.rs:63-65 | the three parts in order follow the handshake's specification |
| `IpRanges.MergeRanges` | client/src/china_ip.rs:58-76 | the merged list is sorted, with an uncovered address between neighbours, covers exactly what the table covers, and is no longer than it, up to the highest address |
| `IpRanges.CanonicalIsUnique` | client/src/china_ip.rs:58-97 | two such lists with the same cover are the same list |
| `IpRanges.CanonicalIsShortest` | client/src/china_ip.rs:58-97 | no list of ranges with the same cover is shorter |
| `IpRanges.MergeIgnoresOrder` | client/src/china_ip.rs:62-66 | the result does not depend on table order or on how the unstable sort breaks ties, and merging is idempotent |
| `IpRanges.SearchByStart` | client/src/china_ip.rs:36-45 | bisection finds an equal start or the insertion point |
| `IpRanges.ContainsIn` | client/src/china_ip.rs:36-56 | lookup on a merged list is the linear scan of it |
| `IpRanges.AddressSet.Contains` | client/src/china_ip.rs:28-34 | for every accepted table and address the index says yes exactly when some line covers the address, a CIDR line being one whose first bits, as many as its prefix, are the address's |
| `IpRanges.BlockMeans` | client/src/china_ip.rs:146-161 | a CIDR line covers exactly the addresses of its family that agree with it in each of the first bits, as many as its prefix says |
| `IpRanges.BlockIsValid` | client/src/china_ip.rs:146-161 | a block never leaves the address space |
| `IpRanges.RangesMean` | client/src/china_ip.rs:99-144 | scanning the ranges of a family is scanning the table's lines |
| `IpRanges.Tables.PushNet` | client/src/china_ip.rs:146-161 | appends the block to its family only |
| `IpRanges.Tables.PushRange` | client/src/china_ip.rs:163-189 | appends the range to its family, or rejects mixed versions and backward ranges and appends nothing |
| `IpRanges.AcceptedLinesCover` | client/src/china_ip.rs:163-189 | a line is acceptable exactly when it covers an address: a single address is, a range of two families or with its end before its start is not |
| `IpRanges.Tables.ReadTable` | client/src/china_ip.rs:108-143 | accepts a table exactly when every line is acceptable, and appends its ranges in order to what was read before |
| `IpRanges.LoadTables` | client/src/china_ip.rs:17-26 | builds one index of both files, or none exactly when some line of either is not acceptable |
| `BackendPool.PicksAreFair` | client/src/grpc_pool.rs:76-79 | in any window of picks from any counter value two channels' counts differ by at most 1, or 2 if the counter wraps within it |
| `BackendPool.RunsPickFairly` | client/src/grpc_pool.rs:76-79 | in every run of the pool every pick is in range, and in every window of its picks two channels are chosen equally often up to 1, or up to 2 across a wrap |
| `BackendPool.WrapIsSeamless` | client/src/grpc_pool.rs:77 | the pick after the wrap goes one channel on from the pick before it exactly when the number of channels divides 2^64 |
| `BackendPool.EvenExactlyWhenSeamless` | client/src/grpc_pool.rs:77 | for every number of channels up to 2^64: counts differ by at most 1 in every window exactly when that number divides 2^64 |
| `BackendPool.WrapMayRepeat` | client/src/grpc_pool.rs:77 | for every other number of channels a window around the wrap chooses channel 0 twice and the last channel never |
| `BackendPool.PermitsAreConserved` | client/src/grpc_pool.rs:59-91 | under any interleaving free permits and relays holding one add up to pool_size * max_streams, each taken as 1 if 0, on as many channels as pool_size says |
| `BackendPool.ChannelLimitHolds` | client/src/grpc_pool.rs:66-69 | for every configuration: no run puts more than max_streams streams (1 if 0) on a channel exactly when pool_size is at most 1 |
| `BackendPool.ChannelLimitIsNotKept` | client/src/grpc_pool.rs:66-69 | for every configuration one channel can end up carrying any number of the streams the pool admits, up to all of them |
| `BackendPool.Backend.PickChannel` | client/src/grpc_pool.rs:76-79 | takes the old counter modulo the channels and wraps the counter |
| `BackendPool.Backend.AcquireStreamPermit` | client/src/grpc_pool.rs:85-91 | takes a permit exactly when one is free |
| `BackendPool.Backend.DropPermit` | client/src/tunnel.rs:37-38 | the end of a relay gives its permit back and takes it off its channel |
| `EndToEnd.ServeRequest` | client/src/ingress_http.rs:37-85 | reading, decoding, parsing and the branch of the method start the relay with no first payload for CONNECT and the rewritten header for every other method, and the unread rest as local bytes, exactly when all of them succeed; otherwise the first that failed is reported |
| `EndToEnd.ServedRequests` | client/src/ingress_http.rs:49-67 | a parsed request is served exactly when its method is CONNECT in any case and its target a host and a port, 443 by default, or its method is another and its target an absolute http target; CONNECT sends no payload |
| `EndToEnd.ConnectOpens` | client/src/ingress_http.rs:49-63 | CONNECT opens the relay to the host and port its target means |
| `EndToEnd.PayloadReads` | client/src/ingress_http.rs:65-83 | for every other method the Open frame names the target's host and port and its payload reads as the request for the path written, with the headers for the origin server |
| `EndToEnd.TargetGetsRequest` | client/src/ingress_http.rs:50-82 | in every run after an accepted request the target holds a prefix of the first payload and the bytes after the header, and exactly those when told the upload has ended, and the Open frame fits the message limit |
| `EndToEnd.TargetGetsSocksTail` | client/src/ingress_socks5.rs:81-84 | after a SOCKS5 handshake the target gets a prefix of exactly the bytes that followed it |
| `EndToEnd.RelayFramesFit` | client/src/tunnel.rs:22-25 | every data frame of either side fits the message limit |

## Left out

- TLS and ECH handshakes, certificate roots, connector caching, gRPC and HTTP/2 wiring: foreign calls; the stream is the FIFO described above.
- Flow control inside the transport: frames taken from a queue are in flight without a bound.
- Sockets, DoH requests, OS lookups and wall-clock time: steps of the environment, with a clock that never goes back.
- Configuration, command line, logging, reason texts, bearer tokens and both user stores: plumbing, or an abstract accept or reject.
- Target policy, resolution, the list of addresses tried and the re-check of the peer: one success or failure.
- Textual forms of IP addresses, CIDR lines, base64 and UTF-8 decoding: library behaviour; addresses are numbers or octets and decoding is a parameter.
- HTTP proxy authentication and the 407 and 200 responses: abstract acceptance and fixed texts.
- `relay_direct`: it hands both directions to the runtime's own copy loop.
- Second requests on one connection: the code relays them unparsed.
- I/O errors while the ingress reads a handshake: they end the connection like an early close.
- The overflow checks of offset arithmetic: shown unreachable for any slice length the language allows.
- The panic of the semaphore for more than 2^61 - 1 permits.
- IpRanges.SortUnstableByStart: stands for the library sort; its body is an insertion sort, and only sortedness and the multiset are promised and used.
- BackendPool.Backend.AcquireStreamPermit: does not model the queue of waiting relays, only whether a permit is there.
- RelayTasks.Tunnel.UploadToEnd: runs the uploader alone with the transport; its interleavings with the other tasks are runs of the transition system.

# TunFlow: verified model of its protocols and state machines

TunFlow relays what arrives on a TUN device to an upstream proxy. This project models the parts where it can
go subtly wrong and proves what they promise: the byte streams spoken to upstream proxies, the transactions on
the Windows route table and the engine behind them, the routing policy with its GeoIP file and traffic
counters, and the buffer allocator all streams rest on.

How the world below is modelled:

- A connection being read (`Transport.Source`) is a byte sequence and a final error. It hands bytes out in
  fragments of any size. A coupled one reports the error together with the last fragment, any other with the
  read after it. A connection being written (`Transport.Sink`) records what was sent; any write may fail after
  a part of it.
- Ciphers are functions with laws (`AeadFraming.Aead.Lawful`, `CipherStream.Cipher.Lawful`), and a lemma shows
  that the laws can be met.
- Every command run on the system, and every step into code outside the model, may fail and then has no
  effect; failures are counted, so success is promised exactly when none occurred. Commands run on the system are
  logged, and the route table is always what the log makes of the first one (`RouteTable.System.Consistent`).
- Atomic counters are state machines whose steps any goroutine may take in any order.

Modules: `Bytes`, `Transport`, `Numbers` (shared); `Nonce`, `AeadFraming`, `AeadStream`, `AeadConn` (Shadowsocks AEAD);
`CipherStream`, `CipherConn` (Shadowsocks stream ciphers); `TlsHello`, `TlsObfs` (simple-obfs); `Socks5Addr`,
`Socks5Client`, `Socks5Udp`; `Relay`; `RouteTable`, `Routes`, `Lifecycle`, `App` (desktop routes and engine);
`Netip`, `Protowire`, `GeoIp`, `Routing`; `Traffic`, `Statistic`; `Allocator`.

Where the code does not do what its documentation or its name suggests, the code is modelled as it is. What it
does instead is proved, with the condition under which it matters or an input that shows it:

- The AEAD counters fall out of step exactly when a zero-length data record was sealed
  (`AeadFraming.LockstepExactly`); `ReadFrom` seals one exactly when its last read returned no bytes
  (`AeadConn.ConnWriter.ReadFrom`). At the very end of a stream it does no harm (`AeadConn.Deliver`).
- An AEAD stream cut right behind a sealed length ends like one that was closed; cut anywhere else inside a record it
  ends unexpectedly (`AeadFraming.StopTruncated`).
- A stream-cipher `Read` drops data that comes together with an error: reading to the end delivers everything
  exactly when the connection is not coupled or nothing was sent (`CipherConn.Deliver`), and a lost byte is
  exhibited (`CipherStream.LastByteIsLost`).
- Route rollback, announced in README.md of the repository, also deletes a host route the user had to the same
  proxy (`Routes.RollbackExact`, `Routes.SetupTeardownExact`, `Routes.RollbackLosesUserRoute`), and leaves the DNS
  server of the TUN interface behind (`Routes.RouteManager.UpAndDown`).
- A set-up on top of routes that a failed teardown left active lets proxy traffic loop exactly when some proxy,
  other than the first, has no host route yet (`Routes.RouteManager.SetupRoutes`, `App.StartTwice`,
  `Routes.StrandedTable`).
- `Reload` drops the routing mark that `start` sets (`Lifecycle.ReloadOptionsExact`).
- The ClientHello is well formed exactly when its record length fits in 16 bits (`TlsHello.HelloExact`).
- A SOCKS5 server may waive authentication although only method 2 was offered
  (`Socks5Client.NoAuthIsAcceptedUnoffered`).
- Stale bytes of the buffer complete the header of a datagram that is cut short when the buffer is long enough, with
  a negative count as result where they make up an IP address (`Socks5Udp.TrustworthyExactly`,
  `Socks5Udp.NegativeCountExactly`, `Socks5Udp.StaleBytesCompleteAHeader`).
- The manager's sampler loses exactly what lands between its `Load` and its `Store(0)`
  (`Statistic.SamplerLosesExactly`, `Statistic.SamplerLoses`).
- A value in a GeoIP CIDR that does not parse does not end the loop: it is read again from behind its tag
  (`GeoIp.BadValueIsReadAgain`, `GeoIp.StrictAgrees`, `GeoIp.GarbageIsPassedOver`).
- A CIDR holds its own address exactly unless it is IPv4-mapped and longer than 32 bits; then it holds none
  (`GeoIp.MappedHoldsNothing`).
- A routing rule with an IPv4-mapped prefix matches nothing, and one that is an address with a zone not that address
  (`Routing.MappedRuleMatchesNothing`, `Routing.HostRuleExactly`).
- A rejected relay response is reported once; the next read takes the bytes behind it for payload
  (`Relay.ReadAfterRejection`).

## Model

| member | source | states |
|---|---|---|
| Nonce.Increment | transport/shadowsocks/shadowaead/stream.go:199-207 | the counter array is bumped in place with carry, the bytes behind it untouched |
| Nonce.BumpIsPlusOne | transport/shadowsocks/shadowaead/stream.go:199-207 | a bump is +1 modulo 256^len, little-endian |
| Nonce.AtSuccessor | transport/shadowsocks/shadowaead/stream.go:199-207 | bumping the k-th nonce gives the (k+1)-st |
| Nonce.AtCollides | transport/shadowsocks/shadowaead/stream.go:199-207 | two messages share a nonce exactly when their numbers agree modulo 256^size |
| Nonce.NoReuse | transport/shadowsocks/shadowaead/stream.go:199-207 | no nonce repeats within the first 256^size messages, and the next one does |
| AeadFraming.LawsAreConsistent | transport/shadowsocks/shadowaead/cipher.go:14-19 | what is assumed of an AEAD can be met by a cipher with a tag of 16 bytes |
| AeadFraming.FramesOfSound | transport/shadowsocks/shadowaead/stream.go:31-62 | cutting a write into records loses nothing, exceeds no record limit and makes no empty data record |
| AeadFraming.WireLength | transport/shadowsocks/shadowaead/stream.go:31-62 | a write of L > 0 bytes costs L + ceil(L/16383)(2 + 2 tag) bytes, an empty one a lone sealed length |
| AeadFraming.TotalLength | transport/shadowsocks/shadowaead/stream.go:31-62 | several writes cost the sum of what each costs |
| AeadFraming.OpenConserves | transport/shadowsocks/shadowaead/stream.go:105-137 | opening a record moves its payload and nothing else from what is to come |
| AeadFraming.OpenEncoded | transport/shadowsocks/shadowaead/stream.go:105-137 | opening what was sealed at the same count gives the payload, stops at the boundary and leaves the counts equal, except for a zero-length data frame |
| AeadFraming.OpenTruncated | transport/shadowsocks/shadowaead/stream.go:105-137 | a stream that ends inside a record ends the reader with an I/O error, never with data |
| AeadFraming.PlainOfWire | transport/shadowsocks/shadowaead/stream.go:31-197 | every prefix of the wire verifies and reads back as a prefix of the payloads; the whole wire as all of them |
| AeadFraming.PlainOfFrames | transport/shadowsocks/shadowaead/stream.go:64-137 | up to the first zero-length data frame everything is delivered in full, whatever follows it |
| AeadFraming.LockstepExactly | transport/shadowsocks/shadowaead/stream.go:64-137 | reader and writer counters agree at every record boundary exactly when no zero-length data frame was sealed |
| AeadFraming.PlainOfLastEmpty | transport/shadowsocks/shadowaead/stream.go:64-137 | a zero-length data frame at the end of a stream, cut anywhere, verifies and yields nothing |
| AeadFraming.PlainOfDeliverable | transport/shadowsocks/shadowaead/stream.go:31-197 | the round trip for writes with one closing zero-length frame |
| AeadFraming.StopAtEnd | transport/shadowsocks/shadowaead/stream.go:105-137 | a whole stream ends as the connection does |
| AeadFraming.StopTruncated | transport/shadowsocks/shadowaead/stream.go:105-137 | a stream cut inside a record ends unexpectedly exactly unless the cut is at the start of one of its two sealed messages |
| AeadStream.Writer.SealNext | transport/shadowsocks/shadowaead/stream.go:31-62 | every message is sealed with the nonce of its number, and the counter moves on by one |
| AeadStream.Writer.Emit | transport/shadowsocks/shadowaead/stream.go:31-92 | the wire grows by the encoding of one frame, or by a prefix of it when the write fails |
| AeadStream.Writer.Write | transport/shadowsocks/shadowaead/stream.go:31-62 | exactly the records of the data are appended, one lone length for an empty write |
| AeadStream.Writer.ReadFrom | transport/shadowsocks/shadowaead/stream.go:64-92 | everything read goes out, one record per read, all but the last carrying data; the last is empty exactly when the source is not coupled or was exhausted |
| AeadStream.Reader.ReadRecord | transport/shadowsocks/shadowaead/stream.go:105-137 | one record is opened in place, within the buffer's capacity, as the framing says |
| AeadStream.Reader.Read | transport/shadowsocks/shadowaead/stream.go:139-161 | direct or by way of the leftover buffer, what is delivered plus what is to come never changes; how many bytes, and where stream and counter stand afterwards, is exact, a tag that fails included |
| AeadStream.Reader.WriteTo | transport/shadowsocks/shadowaead/stream.go:163-197 | the same stream is pushed into any partial sink, the end of the stream leaves nothing behind, and what is reported is the error that ends the stream, a plain end being none |
| AeadConn.ConnWriter.Write | transport/shadowsocks/shadowaead/stream.go:252-276 | while nothing fails the wire is one salt and the records of all writes, exactly those each write is cut into |
| AeadConn.ConnWriter.ReadFrom | transport/shadowsocks/shadowaead/stream.go:278-285 | the records of everything read are added, and the counters stay in step exactly when the source is coupled and not exhausted |
| AeadConn.ConnReader.Read | transport/shadowsocks/shadowaead/stream.go:219-241 | keyed by the first bytes of the stream, reads conserve the plaintext and make progress |
| AeadConn.ConnReader.WriteTo | transport/shadowsocks/shadowaead/stream.go:219-250 | copying conserves the plaintext and reaches its end; a plain end is no error, unless it comes before the salt is whole |
| AeadConn.Send | transport/shadowsocks/shadowaead/stream.go:252-276 | any sequence of writes leaves a prefix of one salt and their records; when nothing failed all of it, salt size plus the sum of L + ceil(L/16383)(2 + 2 tag) bytes |
| AeadConn.WriteAll | transport/shadowsocks/shadowaead/stream.go:252-276 | on any connection whose counters are in step, writes add exactly their records and keep the counters in step |
| AeadConn.SendMixed | transport/shadowsocks/shadowaead/stream.go:252-285 | any mix of writes and `ReadFrom`s, all but the last of which keep the counters in step, leaves a wire that reads back in full |
| AeadConn.RoundTrip | transport/shadowsocks/shadowaead/stream.go:31-285 | for every such mix, every cut, and every schedule of reads and copies with the rest copied out, the output is a prefix of the input, and all of it when nothing failed or was cut; the wire is that of the mix |
| AeadConn.Deliver | transport/shadowsocks/shadowaead/stream.go:31-285 | reading to the end into buffers of any size delivers everything written and copied in |
| CipherStream.LawsAreConsistent | transport/shadowsocks/shadowstream/stream.go:12-19 | what is assumed of a stream cipher can be met |
| CipherStream.Cipher.XoredInPieces | transport/shadowsocks/shadowstream/stream.go:21-91 | encrypting in pieces is encrypting at once |
| CipherStream.Cipher.PrefixDecrypts | transport/shadowsocks/shadowstream/stream.go:62-91 | a prefix of a ciphertext decrypts to that much of the plaintext |
| CipherStream.Writer.Write | transport/shadowsocks/shadowstream/stream.go:21-32 | chunks of 2048 bytes put the one-shot encryption of everything on the wire |
| CipherStream.Writer.ReadFrom | transport/shadowsocks/shadowstream/stream.go:34-51 | the same for fragmented input, the end of which is not an error |
| CipherStream.Reader.Read | transport/shadowsocks/shadowstream/stream.go:62-69 | what is read is the next plaintext; the last fragment of a coupled connection, and nothing else, is dropped |
| CipherStream.Reader.WriteTo | transport/shadowsocks/shadowstream/stream.go:71-91 | everything left is decrypted and written, data that comes with the end included |
| CipherStream.LastByteIsLost | transport/shadowsocks/shadowstream/stream.go:62-69 | a byte that comes with the end of the stream never arrives |
| CipherConn.ConnWriter.Write | transport/shadowsocks/shadowstream/stream.go:135-181 | the wire is one IV and the encryption of every write so far as one message |
| CipherConn.ConnWriter.ReadFrom | transport/shadowsocks/shadowstream/stream.go:135-181 | the same when the data is copied in |
| CipherConn.ConnReader.Read | transport/shadowsocks/shadowstream/stream.go:106-124 | a read takes the front of what is to come; an error ends the stream, with at most one buffer lost, and that only on a coupled connection |
| CipherConn.ConnReader.WriteTo | transport/shadowsocks/shadowstream/stream.go:126-133 | a copy delivers all that is to come |
| CipherConn.FutureOfWire | transport/shadowsocks/shadowstream/stream.go:106-197 | a wire cut anywhere decrypts to a prefix of what was sent |
| CipherConn.Receive | transport/shadowsocks/shadowstream/stream.go:106-133 | any mix of reads and a copy delivers a prefix, and at the end all of the plaintext exactly when the connection is not coupled, a copy came last or there was none; enough reads reach the end |
| CipherConn.RoundTrip | transport/shadowsocks/shadowstream/stream.go:21-197 | end to end, the output is a prefix of the input and all of it under exactly that condition; the wire is the encryption of what was sent |
| CipherConn.Deliver | transport/shadowsocks/shadowstream/stream.go:21-197 | reading to the end recovers everything sent if and only if the connection is not coupled or nothing was sent; else all but one buffer at most |
| TlsHello.MakeClientHello | transport/simple-obfs/tls.go:121-197 | the buffer built front to back is the specified hello |
| TlsHello.Lengths | transport/simple-obfs/tls.go:121-197 | the constants 79, 208 and 217 are the sizes of what is around the data |
| TlsHello.ListsAreWhole | transport/simple-obfs/tls.go:178-190 | the lists in the fixed extensions are as long as they say, and hold these groups, point formats and signature schemes |
| TlsHello.ExtensionsInvert | transport/simple-obfs/tls.go:161-197 | a reader of extensions finds the data as session ticket, the server's name and the five fixed ones |
| TlsHello.HelloInverts | transport/simple-obfs/tls.go:121-197 | every nested length is that of the bytes that follow, whatever comes after the hello |
| TlsHello.HelloExact | transport/simple-obfs/tls.go:127-135 | the hello is well formed exactly when 212 + data + server fits in 16 bits |
| TlsObfs.DeframeInvertsWire | transport/simple-obfs/tls.go:78-197 | a deframer written on its own recovers exactly the chunks written |
| TlsObfs.TLSObfs.WriteChunk | transport/simple-obfs/tls.go:94-109 | the first chunk goes into a hello, every other into one record |
| TlsObfs.CutsExactly | transport/simple-obfs/tls.go:78-92 | chunks of 16384 bytes and what is left, together exactly the data; none for an empty write |
| TlsObfs.TLSObfs.Write | transport/simple-obfs/tls.go:78-92 | exactly these chunks are put on the wire, or the first of them when a write fails |
| TlsObfs.TLSObfs.ServerReads | transport/simple-obfs/tls.go:78-109 | what is on the wire reads back as all data written |
| TlsObfs.ComingOfFramed | transport/simple-obfs/tls.go:27-76 | a framed server stream yields the concatenated payloads |
| TlsObfs.ComingMonotone | transport/simple-obfs/tls.go:27-76 | a stream cut short yields a prefix of what the whole one yields |
| TlsObfs.TLSObfs.ReadFrame | transport/simple-obfs/tls.go:27-52 | header and length are stripped, and `remain` is what the frame still holds |
| TlsObfs.TLSObfs.Read | transport/simple-obfs/tls.go:54-76 | for every buffer and fragmentation the next payload bytes are delivered and `remain` is the rest of the current frame, on errors too |
| TlsObfs.Receive | transport/simple-obfs/tls.go:27-76 | any sequence of reads of a framed stream, cut anywhere, gives a prefix of the payloads, and all of them when nothing was cut |
| Socks5Addr.ValidIffSplit | transport/socks5/socks5.go:98-120 | the two checks accept the same inputs |
| Socks5Addr.SplitIsLocal | transport/socks5/socks5.go:296-322 | what follows an address plays no part in splitting it off |
| Socks5Addr.EncodedLayout | transport/socks5/socks5.go:324-345 | the layouts of RFC 1928, section 5, at most 259 bytes |
| Socks5Addr.SplitInvertsEncoded | transport/socks5/socks5.go:296-345 | splitting recovers any encoded target |
| Socks5Addr.DecodedInvertsEncoded | transport/socks5/socks5.go:122-142 | reading the fields of an encoded target gives the target back |
| Socks5Addr.EncodedPrefixFree | transport/socks5/socks5.go:324-345 | the encoding is injective and prefix-free |
| Socks5Addr.ToUdpAddrInverts | transport/socks5/socks5.go:144-165 | IP and port come back, domain names are refused |
| Socks5Addr.AddrOfAgreesWithSplit | transport/socks5/socks5.go:266-294 | the stream decoder succeeds on the same inputs, with the same address and exact consumption |
| Socks5Addr.ReadAddr | transport/socks5/socks5.go:266-294 | stepping through the stream gives what the stream determines, whatever the fragments |
| Socks5Client.SucceedsExactly | transport/socks5/socks5.go:174-264 | the client succeeds exactly on the conversations that let it through; a server that reads by the RFCs has then heard one method, the credentials exactly if it chose method 2, command and address, and the client has read through the bound port |
| Socks5Client.TranscriptIsHeard | transport/socks5/socks5.go:174-254 | what a successful client sent, read by a server written on its own |
| Socks5Client.CredentialsStaySecret | transport/socks5/socks5.go:201-235 | unless the server opens with method 2 nothing sent depends on the credentials |
| Socks5Client.AuthMessageInjective | transport/socks5/socks5.go:215-223 | the authentication message names one user and password |
| Socks5Client.NoAuthIsAcceptedUnoffered | transport/socks5/socks5.go:179-239 | a server may waive authentication that was offered as the only method |
| Socks5Client.Authenticate | transport/socks5/socks5.go:201-235 | the authentication phase sends, reads and fails as specified |
| Socks5Client.Ask | transport/socks5/socks5.go:241-263 | the request phase sends, reads and fails as specified |
| Socks5Client.ClientHandshake | transport/socks5/socks5.go:174-264 | result, bytes sent and bytes left are a function of the server's stream; a failed write leaves a prefix sent |
| Socks5Udp.DecodesExactly | transport/socks5/socks5.go:378-426 | a packet decodes to an address and payload exactly when it is their encoding |
| Socks5Udp.RoundTrip | transport/socks5/socks5.go:378-426 | the datagram of any target decodes to it, whatever bytes lie behind |
| Socks5Udp.ReadFrom | proxy/socks5/socks5.go:173-192 | the payload is moved to the front over the header, and the address returned was copied before |
| Socks5Udp.Decapsulate | proxy/socks5/socks5.go:173-192 | the encoding of an IP target that fits is stripped to its payload despite stale bytes |
| Socks5Udp.TrustworthyExactly | proxy/socks5/socks5.go:173-192 | for all bytes, the answer is that of the datagram alone exactly unless the datagram is shorter than its first five bytes ask for and the buffer is not; always, when the datagram itself decodes |
| Socks5Udp.NegativeCountExactly | proxy/socks5/socks5.go:173-192 | a count is negative, and an address made of stale bytes reported, exactly when an IPv4 header of 10 or an IPv6 header of 22 bytes lies in the buffer but not in what was received |
| Socks5Udp.StaleBytesCompleteAHeader | proxy/socks5/socks5.go:173-192 | a datagram of five bytes that yields a count of -5 |
| Relay.OneFramePerRead | proxy/relay/relay.go:163-179 | a read takes exactly one frame off the stream, however short the buffer |
| Relay.VerdictExactly | proxy/relay/relay.go:229-243 | only version 1 with status 0 is accepted, anything else is refused for its first fault |
| Relay.Dial | proxy/relay/relay.go:92-147 | without delay header and response are handled at once, and there is a connection exactly when the response is version 1 with status 0; otherwise both wait |
| Relay.RelayConn.Write | proxy/relay/relay.go:186-227 | the waiting header, then the payload or the length-framed datagram; too long a datagram sends nothing |
| Relay.RelayConn.Read | proxy/relay/relay.go:149-180 | the response is looked at once, and got past exactly when it is version 1 with status 0; then payload or one datagram is delivered |
| Relay.Session | proxy/relay/relay.go:92-122 | both modes put the same bytes on the wire, header once and first, as soon as anything is written |
| Relay.ReceiveAll | proxy/relay/relay.go:149-180 | the k-th read returns the first bytes of frame k, as many as there is room for |
| Relay.ReadAfterRejection | proxy/relay/relay.go:149-180 | after a rejected response the second read delivers what follows it as payload |
| RouteTable.CoversExactly | desktop/platform_windows.go:294-303 | what a default, block or host route covers, and which addresses are loopback |
| RouteTable.GuardedHasNoLoop | desktop/platform_windows.go:286-307 | while the tunnel is up, longest-prefix match sends proxy traffic to the physical interface |
| Routes.DistinctSound | desktop/platform_windows.go:189-196 | de-duplication keeps every address once, the first one first |
| Routes.ResolveProxyIPs | desktop/platform_windows.go:189-200 | the loop keeps the distinct IPv4 addresses and fails when there are none |
| Routes.RollbackExact | desktop/platform_windows.go:287-292 | rollback restores the table exactly when the user had no such host route on the interface |
| Routes.SetupTeardownExact | desktop/platform_windows.go:286-347 | set-up and teardown restore the table exactly when it held neither such a host route nor the tunnel's default route |
| Routes.RollbackLosesUserRoute | desktop/platform_windows.go:287-292 | a table that is not restored |
| Routes.RouteManager.Cleanup | desktop/platform_windows.go:287-292 | every removal and the address are tried, in this order, and what is gone is what each of them removed; clean exactly when none failed |
| Routes.RouteManager.AddHosts | desktop/platform_windows.go:294-303 | host routes are added in order up to the first that fails; under a tunnel a table loops exactly when a proxy behind the first has no route yet, or the first cannot be added and any has none |
| Routes.RouteManager.InstallRoutes | desktop/platform_windows.go:286-319 | the commands tried, those of the rollback included, and for each stage the exact table, address and `up` |
| Routes.RouteManager.SetupRoutes | desktop/platform_windows.go:250-320 | the same for the whole set-up; a clean rollback restores the table exactly when none of its deletions takes a route of the user's; from an idle state no step lets proxy traffic loop; the routes end up stranded exactly when the log shows a failed query and a failed teardown command; started under a tunnel, a table loops exactly when a proxy behind the first has no host route |
| Routes.StrandedExactly | desktop/platform_windows.go:286-319 | a set-up leaves `up` active without success exactly when the log shows a failed query followed by a failed teardown command |
| Routes.NothingTakenDown | desktop/platform_windows.go:308-347 | when the first command of that teardown failed, the table is as the set-up made it |
| Routes.StrandedTable | desktop/platform_windows.go:294-303 | such a table, on which a set-up for another list of proxies loops |
| Routes.RouteManager.TeardownRoutes | desktop/platform_windows.go:322-347 | the commands are tried in order up to the first that fails, the table is what those before it left, `up` is cleared exactly when all succeeded, and no step lets proxy traffic loop |
| Routes.RouteManager.UpAndDown | desktop/platform_windows.go:250-347 | a successful set-up and teardown leave the table, and the address if it could be read, as they were, and the DNS server as the set-up made it |
| Lifecycle.ReloadOptionsExact | engine/reload.go:60-63 | a reload leaves the dialer as a start would exactly when the key sets no mark |
| Lifecycle.ReloadForgetsMark | engine/reload.go:60-63 | a key whose mark is dropped |
| Lifecycle.PolicyAsAsked | engine/engine.go:227-238 | the policy in the key's own fields: an empty mode is "global", the direct rules are the rules, else the CIDRs, else in mode "rules" without any rule the private ranges and China |
| Lifecycle.ModeDecides | engine/engine.go:227-238 | a key without a mode sends everything through the proxy, one in mode "direct" nothing |
| Lifecycle.AcceptableExactly | engine/engine.go:239-242 | what the routing proxy accepts, in the key's own fields |
| Lifecycle.StartOptionsExactly | engine/engine.go:138-157 | the dialer binds to the interface and sets the mark exactly when the key names them |
| Lifecycle.Engine.Netstack | engine/engine.go:192-270 | at most one device is opened, and a failure after that closes it; success exactly when nothing failed and the key is acceptable |
| Lifecycle.Engine.Start | engine/engine.go:92-105 | ends fully running or with neither device nor stack, running exactly when nothing failed and the key is sound |
| Lifecycle.Engine.Stop | engine/engine.go:107-124 | closes exactly the device that is open and opens none, or changes nothing when the REST server cannot be stopped |
| Lifecycle.Engine.Reload | engine/reload.go:15-70 | an error changes no proxy, key or dialer option; success installs the policy of the key on the same device |
| App.DesktopApp.Start | desktop/app.go:237-266 | success exactly when nothing failed, and then routes and policy are those of the configuration and look-up; tables are recorded only for the proxies of the look-up; one failure leaves the table as it was unless a rollback takes a route of the user's; on stranded routes with the tunnel up it lets proxy traffic loop exactly when a proxy behind the first has no host route |
| App.DesktopApp.RouteOrStop | desktop/app.go:259-264 | routes go up, or the engine is stopped again; what strands them, and what is put on top of stranded ones, is exact |
| App.DesktopApp.Stop | desktop/app.go:268-278 | the teardown of exactly the routes that are up, recorded for their proxies; the engine keeps running when they cannot be taken down |
| App.DesktopApp.ApplyRunningConfig | desktop/app.go:280-304 | nothing, a stop and one or two starts, or a hot reload, with the effect of each; stranded exactly when the log shows it |
| App.ChangeIsInEffect | desktop/app.go:280-304 | a new proxy, device, interface or route switch that has been applied is in effect: with automatic routes every proxy looked up has its host route, without them none are up, and the engine has the device, interface and mark named; nothing else touches routes or device |
| App.RestartMeans | desktop/app.go:288-297 | a restart on which nothing fails runs the new configuration if it can be started, else the old one if that can |
| App.RunIsForOurs | desktop/app.go:222-304 | in any run tables are recorded only for the proxies of its look-ups and of the routes up at its start, and only such routes are up |
| App.StartTwice | desktop/app.go:237-266 | a run from an idle application: the first start strands its routes at once, the second succeeds, and a table loops exactly when a proxy behind the second's first has no host route in what the first left |
| App.Run | desktop/app.go:222-304 | every result and state is that of its command; over any run whose log does not show a failed query followed by a failed teardown command, so over any with at most one failure, no table ever let traffic of the proxies of the look-ups loop, and active routes or the tunnel's default route imply a running engine |
| Traffic.NothingIsLost | routing/routing.go:74-105 | in every interleaving the total is what was counted, and it is all samples plus what has gathered plus what is in flight |
| Traffic.QuietSwapAccountsForAll | routing/routing.go:92-105 | a swap in a quiet state accounts for every byte |
| Traffic.TrafficCounter.Uploaded | routing/routing.go:74-81 | positive counts go through their two steps, others are ignored |
| Traffic.TrafficCounter.Downloaded | routing/routing.go:83-90 | the same for the other direction |
| Traffic.TrafficCounter.Snapshot | routing/routing.go:92-105 | a due sample takes what has gathered, and totals and rates are reported |
| Statistic.SamplerLosesExactly | tunnel/statistic/manager.go:79-88 | samples plus what has gathered fall short of what was moved by exactly the bytes that landed between a Load and its Store(0) and those that resets took |
| Statistic.SamplesNeverExceed | tunnel/statistic/manager.go:79-88 | sampling never invents traffic |
| Statistic.SamplerLoses | tunnel/statistic/manager.go:79-88 | a run in which seven bytes are lost |
| Statistic.TotalsAgree | tunnel/statistic/tracker.go:57-71 | the manager's total, with what resets took from it, is the sum of all trackers' totals plus what is not credited yet |
| Statistic.SnapshotListsOpenTrackers | tunnel/statistic/manager.go:34-68 | a tracker is listed exactly when it has joined and not left |
| Statistic.Manager.NewTracker | tunnel/statistic/tracker.go:34-51 | a tracker joins with empty totals, in both directions |
| Statistic.Manager.Uploaded | tunnel/statistic/tracker.go:65-71 | one write is its three atomic steps |
| Statistic.Manager.Downloaded | tunnel/statistic/tracker.go:57-63 | one read is its three atomic steps |
| Statistic.Manager.Tick | tunnel/statistic/manager.go:79-88 | one round of the ticker is Load, Store and Store(0) for each direction |
| Statistic.Manager.ResetStatistic | tunnel/statistic/manager.go:70-77 | a reset is three stores of zero for each direction |
| Statistic.Manager.Close | tunnel/statistic/tracker.go:73-76 | a closed tracker leaves the list and keeps its totals |
| Protowire.VarintRoundTrip | routing/routing.go:414-449 | every 64-bit number survives the variable-length encoding |
| Protowire.BytesRoundTrip | routing/routing.go:347-411 | so does every byte string with its length |
| GeoIp.ParseGeoCIDR | routing/routing.go:414-465 | on any bytes the loop ends within bounds and gathers what the specification says, a bad value only leaving the switch |
| GeoIp.ParseGeoEntry | routing/routing.go:380-412 | on any bytes the loop ends within bounds with the folded fields |
| GeoIp.LoadGeoIP | routing/routing.go:347-378 | on any bytes the loop ends within bounds with the entries merged by country |
| GeoIp.ContainsCountry | routing/routing.go:467-482 | the search finds an address exactly when some listed prefix holds it |
| GeoIp.BadValueIsReadAgain | routing/routing.go:414-450 | whatever the tag, a value that does not parse is read again from right behind the tag |
| GeoIp.ScanGoesOn | routing/routing.go:414-450 | the loop is a scan that stops at the first bad value, started anew behind its tag |
| GeoIp.StrictAgrees | routing/routing.go:414-465 | a parser that refuses a bad value finds the same CIDR where every value parses; where one does not, this one goes on with the values it has |
| GeoIp.OverrunIsReadAgain | routing/routing.go:423-450 | a length that overruns is read again as a tag, and what follows still counts |
| GeoIp.GarbageIsPassedOver | routing/routing.go:414-465 | two bytes a strict parser refuses, in front of any CIDR, and the CIDR is found |
| GeoIp.MappedHoldsNothing | routing/routing.go:453-465 | a legal CIDR holds its own address exactly unless it is IPv4-mapped and longer than 32 bits, and then it holds none |
| GeoIp.CidrDecodes | routing/routing.go:414-465 | an encoded CIDR is read back, its fields in either order |
| Protowire.VarintFits | routing/routing.go:414-449 | a varint takes at most ten bytes and 64 bits |
| Protowire.TagExactly | routing/routing.go:380-449 | which varints are tags, and what they say |
| Protowire.FieldSkipped | routing/routing.go:380-449 | a field of any kind, groups within groups included, is passed over whole, unless groups nest more than 10001 deep |
| GeoIp.UnknownPassedOver | routing/routing.go:414-450 | fields a CIDR does not know are passed over, whatever their kind |
| GeoIp.OthersPassedOver | routing/routing.go:347-412 | so are, in an entry and in the file, all that are not length-delimited |
| Netip.ContainsByBytes | routing/routing.go:453-482 | a prefix of whole bytes holds exactly the addresses that begin with the same bytes |
| Netip.MappedExactly | routing/routing.go:453-482 | which 16 bytes are an IPv4-mapped address, and which IPv4 address they map |
| GeoIp.IllegalRefused | routing/routing.go:414-465 | exactly the legal CIDRs are accepted; one without an address or without a length is not |
| GeoIp.EntryDecodes | routing/routing.go:380-412 | an encoded entry is read back as its country and all its CIDRs |
| GeoIp.LoadedFileMeansItsList | routing/routing.go:347-482 | for every encoded list, an address is in a country exactly when some CIDR of a same-named entry holds it |
| Routing.RulesOfMeans | routing/routing.go:144-161 | exactly the accepted rules of a list are kept, and any bad one spoils it |
| Routing.ParsedAs | routing/routing.go:183-217 | which texts are names, countries, prefixes and addresses, and which are refused |
| Routing.HostRuleExactly | routing/routing.go:208-249 | a rule that is an address matches this address exactly unless it is IPv4-mapped or has a zone |
| Routing.MappedRuleMatchesNothing | routing/routing.go:201-249 | a rule with an IPv4-mapped prefix of 96 bits or more matches no destination |
| Routing.NewWithConfig | routing/routing.go:123-170 | when there is a proxy, with which rules and GeoIP data; when there is none, with the error of the first check that fails |
| Routing.Proxy.MatchIP | routing/routing.go:236-249 | a rule matches as its kind says |
| Routing.Proxy.RouteIP | routing/routing.go:219-234 | direct if some direct rule matches, else if no proxy rule matches and the default is direct |
| Routing.Proxy.UseDirect | routing/routing.go:251-262 | the loops decide what the policy says |
| Routing.OrderAndRepetitionDoNotMatter | routing/routing.go:219-234 | permuting or repeating rules within a list changes no verdict |
| Routing.PrivateV6Exactly | routing/routing.go:333-343 | for IPv6 they are membership in fc00::/7, ::1, fe80::/10 and the sixteen link-local multicast ranges |
| Routing.InSevenIsPrivate | routing/routing.go:333-343 | for IPv4 the byte tests are membership in seven ranges |
| Routing.PrivateIsSevenRanges | routing/routing.go:333-343 | writing the seven ranges for `private` changes no verdict for any destination but private IPv6 ones |
| Routing.NotForPrivateIPv6 | routing/routing.go:333-343 | for every private IPv6 destination it changes one |
| Allocator.MsbBrackets | buffer/allocator/allocator.go:57-60 | in range, the exponent of the largest power of two not above the size |
| Allocator.BucketIsLeast | buffer/allocator/allocator.go:37-42 | the bucket chosen is the least power of two that is large enough, below twice the size |
| Allocator.AcceptsExactly | buffer/allocator/allocator.go:47-52 | a capacity is accepted exactly when it is a power of two up to 64K; 0 is refused |
| Allocator.ReturnExactly | buffer/allocator/allocator.go:47-55 | returning a buffer or a part of it keeps every array in one place exactly when no part of it was pooled already |
| Allocator.Allocator.Get | buffer/allocator/allocator.go:31-43 | nothing out of range, otherwise a buffer of the least capacity that nobody else holds |
| Allocator.Allocator.Put | buffer/allocator/allocator.go:45-55 | a slice, from wherever in its array, goes to the bucket of its capacity, or is refused |
| Allocator.Run | buffer/allocator/allocator.go:31-55 | over any run in which owners return each buffer once, whole or in part, each operation adds or gives back the buffer it should, what is lent is exactly what is held, and buffers held are distinct and no part of them is pooled |

## Left out

- Byte counts that come with a write error: several writers count the failed chunk, so counts are stated for success only.
- Nonce.NoReuse: that a program seals fewer than 256^NonceSize messages is not shown.
- Key derivation, randomness and the ciphers themselves: salts, IVs and hello randoms are arbitrary, ciphers are their laws.
- TlsHello.MakeClientHello: the source returns a slice of a pooled buffer whose deferred return has already run; only its bytes at that moment are modelled.
- Socks5Client.ClientHandshake: later version bytes and reserved bytes are not checked by the code, and so are free in the model.
- Host, port and URL parsing, `ParseAddr`, and `socksPacketConn.WriteTo`, which only calls the encoder.
- Relay.ReadRelayResponse: the response format belongs to the go-gost/relay library, which is not part of this model; any function of the stream stands for it.
- Relay.DatagramRead: when a datagram longer than the buffer breaks off, the code hands out pooled bytes it never filled; only their count is stated.
- AeadConn.SendMixed: of writes after a `ReadFrom` that sealed a zero-length record only their bytes on the wire are stated (`AeadConn.ConnWriter.Write`), not what becomes of them: the counters are then out of step, and the laws of a cipher do not say what opening with another nonce gives.
- GeoIp.LoadedFileMeansItsList: lower-casing and trimming of names are parameters.
- Retrying a teardown that failed half-way, beyond the loop it can lead to, and IPv6 routes.
- RouteTable.GuardedHasNoLoop: assumes that no competing host route for a proxy address points elsewhere.
- REST server, ICMP handler, stack options, pre-up and post-up commands: no effect on the modelled state beyond success or failure.
- Config normalisation, persistence, tray, startup and network watching of the desktop application.
- Wrap-around of the 64-bit byte counters: the counters are unbounded.
- Routing.NewWithConfig: trimming, lower-casing and the parsers of a prefix and of an address are parameters, and one error stands for all rules refused.
- Timeouts, deadlines, keep-alives and liveness of goroutines.

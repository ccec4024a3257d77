# Handshake, datagram, write-path and wire-format proofs for Spartans

The Spartans application reaches its server through the C and C++ libraries vendored
under `Spartans/Pods`. This project models the parts of them whose correctness is
hardest to see, in Dafny, and proves what they are for. `dafny verify dfyconfig.toml`
checks all of it.

## The models

**The TLS 1.2 handshake** (`tls_*.dfy` except the write path). `TlsClient` and
`TlsServer` have one function per `do_*` step, from the handshake state and one outside
verdict (proceed, retry, fail) to the new state. `TlsClientMachine` and
`TlsServerMachine` are the same steps on an object's fields, with the loop of
`ssl_client_handshake` or `ssl_server_handshake` and the loop of `ssl_run_handshake`
around them. `TlsClientSafety` and `TlsServerSafety` are about one side alone, against any
peer, whose records may complete any number of messages: what it has hashed in each
state, and which events of the run accepted a certificate, a signature and a
ChangeCipherSpec if it is done. `TlsFlushing` says that neither side waits with
something unsent.
`TlsScript` and `TlsFlow` write the resumed and the full message flow as a script of
slots, each with its sender, its message and whether it is present;
`TlsClientInFlow` and `TlsServerInFlow` show that each machine follows the script;
`TlsComposition` joins the two over FIFO channels, with messages that take one record
or more; `TlsAgreement` and `TlsProgress` draw the conclusions: no unexpected message,
equal transcripts at every Finished, no deadlock, bounded runs, completion.

**DTLS handshake transport and replay window** (`dtls_*.dfy`). `DtlsFragment` has the
fragment header and the reassembly of one message through its byte mask, `DtlsRing`
the window of seven messages as a value. `DtlsRun` is what happens to a receiver as a
list of events, with every change of the read epoch, and `DtlsReceiver` the object that
the source updates, which is always where its events have led. `DtlsPacking` says as
functions how a flight is cut into fragments, packed into datagrams and resumed, for any
answers of the record layer and the transport; `DtlsSender` is the sender as the object
the source updates, proved against those functions. `DtlsDelivery` and `DtlsEndToEnd`
relate what is delivered to what was sent. `DtlsReplay` is the anti-replay window on
its 64-bit map and the record reader around it.

**nanopb** (`pb_*.dfy`). `PbSchema` has descriptors and message structures as typed
values; `PbEncoding` and `PbDecoding` say which bytes a message has and what an input
means. `PbIterator`, `PbOutput` and `PbInput` are the iterator, the output stream and
the input stream as the objects the source updates, with every encoder and decoder
proved against those functions; `PbRequired` is the bit set of required fields.
`PbRoundTrip`, `PbConcat`, `PbMerge` and `PbVarint` hold the laws of the format;
`PbWire` says what the records are in terms of bytes alone, `PbLimits` which messages
are encoded, and `PbSafety` that what is decoded fits its structure.

**The TLS write path** (`tls_buffer.dfy`, `tls_write.dfy`). The write buffer with its
16-bit offsets, and the connection that holds bytes in three places: the pending
flight, the write buffer, and an application write that is being retried. What the
record layer and the transport answer is passed in, so that the contracts say for which
answers a write succeeds. Ghost fields record what was sealed and what the transport
accepted.

**Small algorithms**. `TlsCipherChoice` is the server's choice of cipher with
equal-preference groups, `ConstantTime` the branch-free selection of the RSA premaster
secret, `Refcount` the compare-and-swap reference count as interleaving threads that
call and hand references to each other, beside the locked one.

Lemmas carry `{:induction false}`: each proof is the body that is written down.

## Where the code decides

* A DTLS fragment numbered exactly seven past the next message passes the filter whose
  comment says it is ignored, and is then reported as an internal error
  (`Spartans/Pods/BoringSSL-GRPC/ssl/d1_both.cc:377-386` and `:265-270`). The model does
  what the code does.
* `pb_decode_varint32_eof` keeps its bit position in eight bits, drops bits 32 to 34 of a
  fifth byte that is not the last (`PbVarint.BitsAreDropped` is such an input), and takes
  zeros and sign bytes in any mixture behind it. The model does what the code does.
  `PbVarint.DecodersAgree` says which inputs it accepts, `PbVarint.Varint32Exact` which
  canonical values, and `PbVarint.SameNumber` exactly when it reads the number that was
  sent.
* nanopb sends a string that fills its array, but refuses it when decoding, because the
  zero no longer fits (`PbRoundTrip.FullStringIsLost` is such a message). The round trip
  holds exactly for messages without such a string that is sent
  (`PbRoundTrip.MessageOutcome`), and decoding fails for the others.
* An empty message matches the tag zero of its own terminator; a record with that tag
  is then an error instead of an unknown field.
* `EnsureCap` may be asked for a capacity that leaves no room for the alignment slack in
  16 bits. A capacity it grants is safe, wherever the allocator puts the buffer, exactly
  if it is not one of the seven from 0xfff9 on (`TlsBuffer.SlackIff`). The buffer is
  modelled for every capacity; the connection is for records that ask for none of them.
* `ssl3_write_app_data` forgets how much was written when a retry offers less than that
  (`TlsWrite.Connection.WriteAppData`).
* A write that the record layer refuses after the flight was moved into the write buffer
  leaves the flight there with no write pending; later writes are refused because the
  buffer is in use, until another flight is flushed (`TlsWrite.Connection.Strands` is the
  exact condition, in the contract of `DoWrite`).
* When sealing a record fails after other records of the same packet were sealed, the
  DTLS sender has moved past the earlier ones without sending them
  (`DtlsPacking.PassesOverAMessage` is such a run). What the transport accepted carries
  the flight up to the sender's position exactly if no message behind the first of a
  packet is refused (`DtlsPacking.AccountHoldsIff`), so always if the record layer never
  refuses (`DtlsPacking.NeverLost`); sending the flight from the start again mends it
  (`DtlsSender.Sender.Retransmit`).

## Model

| member | source | states |
|---|---|---|
| `TlsClient.Step` | Spartans/Pods/BoringSSL-GRPC/ssl/handshake_client.cc:1707-1789 | every turn of the switch, in every state but Done, lowers the rank of the state, which depends on resumption around the two Finished messages, or stops the loop |
| `TlsServer.Step` | Spartans/Pods/BoringSSL-GRPC/ssl/handshake_server.cc:1539-1621 | the same of the server |
| `TlsClientInFlow.StartConnectFollows` | Spartans/Pods/BoringSSL-GRPC/ssl/handshake_client.cc:385-452 | in a run with a configured server, the step sends the flow's ClientHello; it never fails |
| `TlsClientInFlow.ReadServerHelloFollows` | Spartans/Pods/BoringSSL-GRPC/ssl/handshake_client.cc:535-759 | in a run with a configured server, the step consumes the flow's ServerHello and goes on with the resumed or the full flow, whichever it is in, or waits for it; it never fails |
| `TlsClientInFlow.ReadServerCertificateFollows` | Spartans/Pods/BoringSSL-GRPC/ssl/handshake_client.cc:771-819 | in a run with a configured server, the step consumes the certificate exactly if the flow has one; it never fails |
| `TlsClientInFlow.ReadCertificateStatusFollows` | Spartans/Pods/BoringSSL-GRPC/ssl/handshake_client.cc:821-869 | in a run with a configured server, the step consumes the staple exactly if the flow has one; it never fails |
| `TlsClientInFlow.VerifyServerCertificateFollows` | Spartans/Pods/BoringSSL-GRPC/ssl/handshake_client.cc:871-889 | in a run with a configured server, the step sends and consumes nothing; it never fails |
| `TlsClientInFlow.ReadServerKeyExchangeFollows` | Spartans/Pods/BoringSSL-GRPC/ssl/handshake_client.cc:891-1071 | in a run with a configured server, the step consumes a key exchange message exactly if the flow has one; it never fails |
| `TlsClientInFlow.ReadCertificateRequestFollows` | Spartans/Pods/BoringSSL-GRPC/ssl/handshake_client.cc:1073-1143 | in a run with a configured server, the step consumes a request exactly if the flow has one; it never fails |
| `TlsClientInFlow.ReadServerHelloDoneFollows` | Spartans/Pods/BoringSSL-GRPC/ssl/handshake_client.cc:1145-1167 | in a run with a configured server, the step consumes ServerHelloDone; it never fails |
| `TlsClientInFlow.SendClientCertificateFollows` | Spartans/Pods/BoringSSL-GRPC/ssl/handshake_client.cc:1169-1215 | in a run with a configured server, the step sends the certificate message exactly if the flow has one; it never fails |
| `TlsClientInFlow.SendClientKeyExchangeFollows` | Spartans/Pods/BoringSSL-GRPC/ssl/handshake_client.cc:1220-1371 | in a run with a configured server, the step sends the key exchange message; it never fails |
| `TlsClientInFlow.SendClientCertificateVerifyFollows` | Spartans/Pods/BoringSSL-GRPC/ssl/handshake_client.cc:1373-1455 | in a run with a configured server, the step sends a signature exactly if the flow has one; it never fails |
| `TlsClientInFlow.SendClientFinishedFollows` | Spartans/Pods/BoringSSL-GRPC/ssl/handshake_client.cc:1457-1512 | in a run with a configured server, the step sends ChangeCipherSpec, the optional messages of the flow and a Finished over the flow before it; it never fails |
| `TlsClientInFlow.FinishFlightFollows` | Spartans/Pods/BoringSSL-GRPC/ssl/handshake_client.cc:1538-1564 | in a run with a configured server, the step goes on with the slot that follows in a resumed or a full flow; it never fails |
| `TlsClientInFlow.ReadSessionTicketFollows` | Spartans/Pods/BoringSSL-GRPC/ssl/handshake_client.cc:1566-1647 | in a run with a configured server, the step consumes a ticket exactly if the flow has one, and then waits for ChangeCipherSpec; it never fails |
| `TlsClientInFlow.ProcessChangeCipherSpecFollows` | Spartans/Pods/BoringSSL-GRPC/ssl/handshake_client.cc:1649-1656 | in a run with a configured server, the step finds no message left unprocessed; it never fails |
| `TlsClientInFlow.ReadServerFinishedFollows` | Spartans/Pods/BoringSSL-GRPC/ssl/handshake_client.cc:1658-1672 | in a run with a configured server, the step finds the server's Finished to cover its own transcript; it never fails |
| `TlsServerInFlow.ReadClientHelloFollows` | Spartans/Pods/BoringSSL-GRPC/ssl/handshake_server.cc:432-510 | in a run with a configured client, the step leaves the ClientHello to be read again; it never fails |
| `TlsServerInFlow.SelectParametersFollows` | Spartans/Pods/BoringSSL-GRPC/ssl/handshake_server.cc:572-684 | in a run with a configured client, the step consumes the ClientHello; it never fails |
| `TlsServerInFlow.SendServerHelloFollows` | Spartans/Pods/BoringSSL-GRPC/ssl/handshake_server.cc:686-752 | in a run with a configured client, the step sends the flow's ServerHello; it never fails |
| `TlsServerInFlow.SendServerCertificateFollows` | Spartans/Pods/BoringSSL-GRPC/ssl/handshake_server.cc:754-840 | in a run with a configured client, the step sends the certificate and the staple exactly if the flow has them; it never fails |
| `TlsServerInFlow.SendServerKeyExchangeFollows` | Spartans/Pods/BoringSSL-GRPC/ssl/handshake_server.cc:842-912 | in a run with a configured client, the step sends parameters exactly if the flow has them; it never fails |
| `TlsServerInFlow.SendServerHelloDoneFollows` | Spartans/Pods/BoringSSL-GRPC/ssl/handshake_server.cc:914-947 | in a run with a configured client, the step sends the request exactly if the flow has one, and ServerHelloDone; it never fails |
| `TlsServerInFlow.ReadClientCertificateFollows` | Spartans/Pods/BoringSSL-GRPC/ssl/handshake_server.cc:949-1040 | in a run with a configured client, the step consumes the client's certificate message exactly if the flow has one; it never fails |
| `TlsServerInFlow.VerifyClientCertificateFollows` | Spartans/Pods/BoringSSL-GRPC/ssl/handshake_server.cc:1042-1056 | in a run with a configured client, the step sends and consumes nothing; it never fails |
| `TlsServerInFlow.ReadClientKeyExchangeFollows` | Spartans/Pods/BoringSSL-GRPC/ssl/handshake_server.cc:1058-1267 | in a run with a configured client, the step consumes the key exchange message; it never fails |
| `TlsServerInFlow.ReadClientCertificateVerifyFollows` | Spartans/Pods/BoringSSL-GRPC/ssl/handshake_server.cc:1269-1363 | in a run with a configured client, the step consumes a signature exactly if the flow has one; it never fails |
| `TlsServerInFlow.ProcessChangeCipherSpecFollows` | Spartans/Pods/BoringSSL-GRPC/ssl/handshake_server.cc:1370-1377 | in a run with a configured client, the step finds no message left unprocessed; it never fails |
| `TlsServerInFlow.ReadNextProtoFollows` | Spartans/Pods/BoringSSL-GRPC/ssl/handshake_server.cc:1379-1413 | in a run with a configured client, the step consumes NextProto exactly if the flow has it; it never fails |
| `TlsServerInFlow.ReadChannelIdFollows` | Spartans/Pods/BoringSSL-GRPC/ssl/handshake_server.cc:1415-1437 | in a run with a configured client, the step consumes ChannelID exactly if the flow has it; it never fails |
| `TlsServerInFlow.ReadClientFinishedFollows` | Spartans/Pods/BoringSSL-GRPC/ssl/handshake_server.cc:1439-1461 | in a run with a configured client, the step finds the client's Finished to cover its own transcript; it never fails |
| `TlsServerInFlow.SendServerFinishedFollows` | Spartans/Pods/BoringSSL-GRPC/ssl/handshake_server.cc:1463-1509 | in a run with a configured client, the step sends the flow's ticket, ChangeCipherSpec and a Finished over the flow before it; it never fails |
| `TlsServerSafety.HelloOn` | Spartans/Pods/BoringSSL-GRPC/ssl/handshake_server.cc:572-684 | against any peer: the ClientHello that is hashed settles the flow, except for the client's certificate |
| `TlsServerSafety.SendServerHelloOn` | Spartans/Pods/BoringSSL-GRPC/ssl/handshake_server.cc:686-752 | against any peer: hashes the flow's ServerHello |
| `TlsServerSafety.SendServerCertificateOn` | Spartans/Pods/BoringSSL-GRPC/ssl/handshake_server.cc:754-840 | against any peer: hashes the certificate and staple of the flow |
| `TlsServerSafety.SendServerKeyExchangeOn` | Spartans/Pods/BoringSSL-GRPC/ssl/handshake_server.cc:842-912 | against any peer: hashes the parameters of the flow |
| `TlsServerSafety.SendServerHelloDoneOn` | Spartans/Pods/BoringSSL-GRPC/ssl/handshake_server.cc:914-947 | against any peer: hashes the request of the flow and ServerHelloDone |
| `TlsServerSafety.CertificateOn` | Spartans/Pods/BoringSSL-GRPC/ssl/handshake_server.cc:949-1040 | against any peer: hashes only a certificate message, and only if it asked; whether it is empty settles the rest of the flow |
| `TlsServerSafety.VerifyClientCertificateOn` | Spartans/Pods/BoringSSL-GRPC/ssl/handshake_server.cc:1042-1056 | against any peer: hashes nothing |
| `TlsServerSafety.ReadClientKeyExchangeOn` | Spartans/Pods/BoringSSL-GRPC/ssl/handshake_server.cc:1058-1267 | against any peer: hashes only a ClientKeyExchange |
| `TlsServerSafety.ReadClientCertificateVerifyOn` | Spartans/Pods/BoringSSL-GRPC/ssl/handshake_server.cc:1269-1363 | against any peer: hashes a CertificateVerify exactly if the client sent a certificate |
| `TlsServerSafety.ReadNextProtoOn` | Spartans/Pods/BoringSSL-GRPC/ssl/handshake_server.cc:1379-1413 | against any peer: hashes a NextProto exactly if it was negotiated |
| `TlsServerSafety.ReadChannelIdOn` | Spartans/Pods/BoringSSL-GRPC/ssl/handshake_server.cc:1415-1437 | against any peer: hashes a ChannelID exactly if it was negotiated |
| `TlsServerSafety.ReadClientFinishedOn` | Spartans/Pods/BoringSSL-GRPC/ssl/handshake_server.cc:1439-1461 | against any peer: hashes only a Finished of the client over exactly the messages before it |
| `TlsServerSafety.SendServerFinishedOn` | Spartans/Pods/BoringSSL-GRPC/ssl/handshake_server.cc:1463-1509 | against any peer: hashes the flow's ticket and its own Finished over the messages before it |
| `TlsServerSafety.RunOn` | Spartans/Pods/BoringSSL-GRPC/ssl/handshake_server.cc:1539-1621 | whatever the peer sends, what the server has hashed is the beginning of the message flow of RFC 5246 for the hello and the certificate it was sent |
| `TlsServerSafety.ChecksDecide` | Spartans/Pods/BoringSSL-GRPC/ssl/handshake_server.cc:432-1509 | a check that fails ends the handshake and one that asks to wait pauses it, without a message sent or read, in exactly the states that ask for one, and in the others the verdict makes no difference; a message left over at the key change is fatal |
| `TlsServerSafety.SwitchedBefore` | Spartans/Pods/BoringSSL-GRPC/ssl/handshake_server.cc:1365-1377 | the server gets past its key change only by a ChangeCipherSpec that arrived while it waited for one, before any Finished of the client was hashed |
| `TlsServerSafety.VerifiedBefore` | Spartans/Pods/BoringSSL-GRPC/ssl/handshake_server.cc:1042-1056 | a server that holds a client certificate gets past its verification only by a verdict that accepted it |
| `TlsServerSafety.SignedBefore` | Spartans/Pods/BoringSSL-GRPC/ssl/handshake_server.cc:1269-1363 | it gets past the signature only by a CertificateVerify that was accepted |
| `TlsServerSafety.DoneOnlyIfEstablished` | Spartans/Pods/BoringSSL-GRPC/ssl/handshake_server.cc:1439-1621 | against any peer a server is done only if it has hashed exactly the message list of a handshake, with the client's Finished over all before it; a ChangeCipherSpec came first; and a client certificate was verified and its signature accepted |
| `TlsClientSafety.ServerHelloOn` | Spartans/Pods/BoringSSL-GRPC/ssl/handshake_client.cc:535-759 | against any peer: hashes only a ServerHello, whose parameters settle the cipher, the optional messages and, if the client offered a session, resumption |
| `TlsClientSafety.CertificateOn` | Spartans/Pods/BoringSSL-GRPC/ssl/handshake_client.cc:771-819 | against any peer: hashes a certificate that is not empty, exactly if the cipher has one |
| `TlsClientSafety.StatusOn` | Spartans/Pods/BoringSSL-GRPC/ssl/handshake_client.cc:821-869 | against any peer: hashes a staple, if the server sends one and said it might |
| `TlsClientSafety.KeyExchangeOn` | Spartans/Pods/BoringSSL-GRPC/ssl/handshake_client.cc:891-1071 | against any peer: hashes a key exchange, never with an RSA cipher, and goes on without one only if the cipher requires none |
| `TlsClientSafety.RequestOn` | Spartans/Pods/BoringSSL-GRPC/ssl/handshake_client.cc:1073-1143 | against any peer: hashes a request, if the server sends one and the cipher has a certificate |
| `TlsClientSafety.SendOn` | Spartans/Pods/BoringSSL-GRPC/ssl/handshake_client.cc:1169-1455 | against any peer: hashes its certificate, key exchange and signature exactly where the request and its own certificate ask for them |
| `TlsClientSafety.OwnFinishedOn` | Spartans/Pods/BoringSSL-GRPC/ssl/handshake_client.cc:1457-1536 | against any peer: hashes the optional messages that were negotiated, and its Finished over exactly the messages before it |
| `TlsClientSafety.TicketOn` | Spartans/Pods/BoringSSL-GRPC/ssl/handshake_client.cc:1566-1647 | against any peer: hashes a ticket exactly if the ServerHello said so, and remembers whether it was empty |
| `TlsClientSafety.PeerFinishedOn` | Spartans/Pods/BoringSSL-GRPC/ssl/handshake_client.cc:1658-1672 | against any peer: hashes only a Finished of the server over exactly the messages before it |
| `TlsClientSafety.ChecksDecide` | Spartans/Pods/BoringSSL-GRPC/ssl/handshake_client.cc:385-1672 | a check that fails ends the handshake and one that asks to wait pauses it, without a message sent or read, in exactly the states that ask for one, and in the others the verdict makes no difference, but for the early return of False Start; a message left over at the key change is fatal |
| `TlsClientSafety.RunOn` | Spartans/Pods/BoringSSL-GRPC/ssl/handshake_client.cc:1707-1789 | whatever the peer sends, what the client has hashed is the beginning of a resumed or a full message flow of RFC 5246, for what the peer has chosen to send of it |
| `TlsClientSafety.SwitchedBefore` | Spartans/Pods/BoringSSL-GRPC/ssl/handshake_client.cc:1649-1656 | the client gets past its key change only by a ChangeCipherSpec that arrived while it waited for one, before any Finished of the server was hashed |
| `TlsClientSafety.VerifiedBefore` | Spartans/Pods/BoringSSL-GRPC/ssl/handshake_client.cc:871-889 | a client gets past the verification of a certificate only by an event: a verdict that accepted it, given while the client was in that state |
| `TlsClientSafety.SignedBefore` | Spartans/Pods/BoringSSL-GRPC/ssl/handshake_client.cc:891-1071 | it gets past a key exchange that its cipher requires only by a verdict that did not refuse one, given when that message was at hand |
| `TlsClientSafety.DoneOnlyIfEstablished` | Spartans/Pods/BoringSSL-GRPC/ssl/handshake_client.cc:1457-1789 | against any peer, any verdicts and any pauses a client is done only if it has hashed exactly the message list of a resumed or a full handshake, with both Finished messages over all before them, after a ChangeCipherSpec that came before any Finished of the server; and, in a full handshake with a certificate cipher, some event accepted the certificate and, if the cipher requires a signed key exchange, some event accepted that |
| `TlsFlushing.ClientSendsFirst` | Spartans/Pods/BoringSSL-GRPC/ssl/handshake.cc:491-628 | against any peer, a client that waits for a record, or is done, has sent everything it has written |
| `TlsFlushing.ServerSendsFirst` | Spartans/Pods/BoringSSL-GRPC/ssl/handshake.cc:491-628 | the same of the server |
| `TlsClientMachine.ClientHandshake.TakeTurn` | Spartans/Pods/BoringSSL-GRPC/ssl/handshake_client.cc:1707-1789 | a turn of the switch on the object: its fields change as the step functions say, for every state and verdict |
| `TlsClientMachine.ClientHandshake.ClientHandshakeLoop` | Spartans/Pods/BoringSSL-GRPC/ssl/handshake_client.cc:1707-1789 | the loop terminates, what it does is a run of the step functions added to what happened before, and no record arrives meanwhile; it stops only when done, or with a lower rank, paused, failed, or waiting for a message it does not hold |
| `TlsClientMachine.ClientHandshake.FlushFlight` | Spartans/Pods/BoringSSL-GRPC/ssl/handshake.cc:491-628 | the front of the flight leaves in order, and the wait is over exactly when nothing of it is left |
| `TlsClientMachine.ClientHandshake.OpenRecord` | Spartans/Pods/BoringSSL-GRPC/ssl/handshake.cc:491-628 | a wait for a message takes the messages a handshake record completes, be they none, one or several; a wait for ChangeCipherSpec takes that; any other record is an error |
| `TlsClientMachine.ClientHandshake.ResolveWait` | Spartans/Pods/BoringSSL-GRPC/ssl/handshake.cc:491-628 | each wait is resolved, or the call ends for one of three reasons: failure, nothing more to write or read for now, or a callback that asked to wait; the records that arrive are the front of those given |
| `TlsClientMachine.ClientHandshake.RunHandshake` | Spartans/Pods/BoringSSL-GRPC/ssl/handshake.cc:491-628 | for any records given, the outer loop terminates; what happened before stays, what is added holds exactly the records that were read, in order, and the object is where all of that leads; completion means everything the safety theorem promises, failure an error, and anything else a machine that waits for the transport, a record or a callback |
| `TlsServerMachine.ServerHandshake.TakeTurn` | Spartans/Pods/BoringSSL-GRPC/ssl/handshake_server.cc:1539-1621 | the same of the server |
| `TlsServerMachine.ServerHandshake.ServerHandshakeLoop` | Spartans/Pods/BoringSSL-GRPC/ssl/handshake_server.cc:1539-1621 | the same of the server |
| `TlsServerMachine.ServerHandshake.RunHandshake` | Spartans/Pods/BoringSSL-GRPC/ssl/handshake.cc:491-628 | the same of the server |
| `TlsClientInFlow.StepFollows` | Spartans/Pods/BoringSSL-GRPC/ssl/handshake_client.cc:1707-1789 | every turn of the client keeps it on the flow: it sends exactly its next slots, or consumes exactly the next message, or waits for it |
| `TlsServerInFlow.StepFollows` | Spartans/Pods/BoringSSL-GRPC/ssl/handshake_server.cc:1539-1621 | the same of the server |
| `TlsComposition.MoveKeeps` | Spartans/Pods/BoringSSL-GRPC/ssl/handshake.cc:491-628 | every move of either side, and every record that brings only a part of a message, keeps both machines on the flow and the channels holding exactly the flow between the two positions |
| `TlsComposition.ComingIsNext` | Spartans/Pods/BoringSSL-GRPC/ssl/s3_both.cc:184-205 | the record that comes next to a side that holds no message is the one of its next slot, be it in the channel or still being sent, so a part of a message comes only where a message is awaited |
| `TlsComposition.RunKeeps` | Spartans/Pods/BoringSSL-GRPC/ssl/handshake.cc:491-628 | so does every interleaving, from every pair of configurations |
| `TlsParties.FlowIs` | Spartans/Pods/BoringSSL-GRPC/ssl/handshake_server.cc:572-752 | what the two configurations settle, in their own terms: resumption, every negotiated extension, and every optional message |
| `TlsAgreement.OptionalMessages` | Spartans/Pods/BoringSSL-GRPC/ssl/handshake_server.cc:622-947 | which optional messages a handshake of two configurations has: a request, for one, exactly in a full handshake with a certificate cipher whose server asks for one, and a key exchange exactly in a full one with an ECDHE cipher or a PSK hint |
| `TlsAgreement.NoUnexpectedMessage` | Spartans/Pods/BoringSSL-GRPC/ssl/handshake_server.cc:1539-1621 | under any interleaving, any pauses and any split of messages into records, as long as no outside check fails, neither side meets an unexpected message or a Finished that does not match, and one transcript is always a prefix of the other and of the message list |
| `TlsAgreement.DoneTranscripts` | Spartans/Pods/BoringSSL-GRPC/ssl/handshake.cc:380-476 | a side that is done has hashed exactly the message list, so both transcripts are equal |
| `TlsProgress.NeverStuck` | Spartans/Pods/BoringSSL-GRPC/ssl/handshake.cc:491-628 | until both sides are done one of them can move |
| `TlsProgress.BoundedRun` | Spartans/Pods/BoringSSL-GRPC/ssl/handshake.cc:491-628 | once callbacks stop asking to wait, a run is no longer than a number fixed at its start and twice the records that carried only a part of a message |
| `TlsProgress.Completes` | Spartans/Pods/BoringSSL-GRPC/ssl/handshake.cc:491-628 | from every reachable state some moves complete the handshake |
| `TlsProgress.CanAlwaysComplete` | Spartans/Pods/BoringSSL-GRPC/ssl/handshake.cc:491-628 | every run without failures extends to one in which both sides are done |
| `DtlsReplay.BitOfShift` | Spartans/Pods/BoringSSL-GRPC/ssl/dtls_record.cc:155-175 | the shift of the 64-bit map moves every bit up and loses those that leave the top |
| `DtlsReplay.BitOfMark` | Spartans/Pods/BoringSSL-GRPC/ssl/dtls_record.cc:155-175 | or-ing the unit of a bit into the 64-bit map sets that bit and no other |
| `DtlsReplay.BitOfTest` | Spartans/Pods/BoringSSL-GRPC/ssl/dtls_record.cc:140-150 | and-ing the unit of a bit with the map tests exactly that bit |
| `DtlsReplay.RecordRefines` | Spartans/Pods/BoringSSL-GRPC/ssl/dtls_record.cc:155-175 | recording on the 64-bit map is recording on its bits: move up, mark |
| `DtlsReplay.DiscardExact` | Spartans/Pods/BoringSSL-GRPC/ssl/dtls_record.cc:140-150 | on the 64-bit map: a number is discarded exactly if it was accepted before or is 64 or more below an accepted one |
| `DtlsReplay.RecordDescribes` | Spartans/Pods/BoringSSL-GRPC/ssl/dtls_record.cc:155-175 | on the 64-bit map: after recording a number, bit i is set exactly when max - i was accepted |
| `DtlsReplay.ToU64Be` | Spartans/Pods/BoringSSL-GRPC/ssl/dtls_record.cc:128-136 | the loop reads the eight bytes in network order |
| `DtlsReplay.BigEndianSplit` | Spartans/Pods/BoringSSL-GRPC/ssl/dtls_record.cc:128-136 | the epoch is the top 16 bits of the number |
| `DtlsReplay.RecordReader.Open` | Spartans/Pods/BoringSSL-GRPC/ssl/dtls_record.cc:177-272 | a record is accepted exactly if its epoch is the read epoch, its number was not accepted under these keys and is not stale, it is authentic and not too long; under no keys is a number ever accepted twice |
| `DtlsReplay.RecordReader.NextEpoch` | Spartans/Pods/BoringSSL-GRPC/ssl/dtls_method.cc:81-95 | new keys start with an empty window; the 16-bit epoch may come round, and no number is accepted twice under the same keys even then |
| `DtlsBits.BitRangeBits` | Spartans/Pods/BoringSSL-GRPC/ssl/d1_both.cc:203-205 | bit_range has exactly the bits from start up to end |
| `DtlsFragment.ParseEncoded` | Spartans/Pods/BoringSSL-GRPC/ssl/d1_both.cc:459-473 | a header and a body are read back from their bytes, whatever follows |
| `DtlsFragment.HeaderLayout` | Spartans/Pods/BoringSSL-GRPC/ssl/d1_both.cc:511-537 | the twelve bytes of a header: type, 24-bit length, 16-bit number, 24-bit offset and 24-bit fragment length, in network order |
| `DtlsFragment.ParseExact` | Spartans/Pods/BoringSSL-GRPC/ssl/d1_both.cc:459-473 | what is parsed is exactly the header, the body and the rest of the input; an input is refused exactly if it is shorter than a header, or than its header says |
| `DtlsFragment.NewHoldsNothing` | Spartans/Pods/BoringSSL-GRPC/ssl/d1_both.cc:152-199 | a new message has its header in unfragmented form, as DTLS hashes it, and no byte of its body |
| `DtlsFragment.MarkRange` | Spartans/Pods/BoringSSL-GRPC/ssl/d1_both.cc:211-251 | the loop sets exactly the bits of the range, across bytes |
| `DtlsFragment.CheckComplete` | Spartans/Pods/BoringSSL-GRPC/ssl/d1_both.cc:211-251 | the mask is full exactly if every byte was received |
| `DtlsFragment.Mark` | Spartans/Pods/BoringSSL-GRPC/ssl/d1_both.cc:211-251 | after marking, the message holds the bytes it had and the range; it is complete, and drops its mask, exactly if that is all of it |
| `DtlsFragment.CopyIn` | Spartans/Pods/BoringSSL-GRPC/ssl/d1_both.cc:393-402 | a fragment's bytes are put in their place, unless the message is complete |
| `DtlsRing.ReadFragment` | Spartans/Pods/BoringSSL-GRPC/ssl/d1_both.cc:297-406 | every message of the ring lies in the window of seven, in the slot of its number, so the assertion on the number of the message found cannot fail; a fragment is an error exactly if it is out of its message or its message too long, if it is not of the next message in the second flight of a handshake, if it is of another type or length than the message held, or if its number is one past the window; every error keeps the ring, and other slots are untouched |
| `DtlsRing.NextMessage` | Spartans/Pods/BoringSSL-GRPC/ssl/d1_both.cc:426-438 | the window moves by one, the message taken is dropped and the others stay |
| `DtlsReceiver.Receiver.GetIncoming` | Spartans/Pods/BoringSSL-GRPC/ssl/d1_both.cc:265-295 | finds or creates the message in its slot; another type or length is an error, and an error changes nothing |
| `DtlsReceiver.Receiver.StoreFragment` | Spartans/Pods/BoringSSL-GRPC/ssl/d1_both.cc:393-402 | the fragment goes into its slot, unless the message is complete, and every other slot stays |
| `DtlsReceiver.Receiver.TakeFragment` | Spartans/Pods/BoringSSL-GRPC/ssl/d1_both.cc:352-403 | one turn of the loop is ReadFragment, with the internal error for the number one past the window, and one event of the run |
| `DtlsReceiver.Receiver.OpenHandshake` | Spartans/Pods/BoringSSL-GRPC/ssl/d1_both.cc:297-406 | a record is discarded exactly if it is encrypted application data; a ChangeCipherSpec is taken exactly if it is one plain byte 1; the fragments of a handshake record are read in order up to the first error, which is the answer; any other record is refused; the run goes on with exactly those events |
| `DtlsReceiver.Receiver.GetMessage` | Spartans/Pods/BoringSSL-GRPC/ssl/d1_both.cc:408-424 | the current message is handed out exactly if it is complete |
| `DtlsReceiver.Receiver.TakeMessage` | Spartans/Pods/BoringSSL-GRPC/ssl/d1_both.cc:426-438 | the current message is delivered and the window moves; the messages delivered carry consecutive numbers |
| `DtlsReceiver.Receiver.HasUnprocessed` | Spartans/Pods/BoringSSL-GRPC/ssl/d1_both.cc:440-457 | true exactly if a ChangeCipherSpec or a message other than the one handed out is left |
| `DtlsReceiver.Receiver.SetReadState` | Spartans/Pods/BoringSSL-GRPC/ssl/dtls_method.cc:81-95 | the 16-bit epoch goes on exactly if nothing is left unprocessed |
| `DtlsReceiver.Receiver.OpenChangeCipherSpec` | Spartans/Pods/BoringSSL-GRPC/ssl/d1_both.cc:475-490 | takes the ChangeCipherSpec that is flagged or that the record is; any other record is opened, and discarded if that succeeds; none stays flagged |
| `DtlsRun.BytesWereAdded` | Spartans/Pods/BoringSSL-GRPC/ssl/d1_both.cc:297-406 | each byte held of a message was brought by a fragment that became a part of it |
| `DtlsRun.OneEpoch` | Spartans/Pods/BoringSSL-GRPC/ssl/dtls_method.cc:81-95 | in every run, whatever arrives and however the read epoch changes, two fragments that become parts of one message come in the same read epoch |
| `DtlsRun.TakenFromOneEpoch` | Spartans/Pods/BoringSSL-GRPC/ssl/d1_both.cc:297-457 | no message taken mixes read epochs: each of its bytes came with a fragment, and all of its fragments came in one read epoch |
| `DtlsReceiver.DeliveredFromOneEpoch` | Spartans/Pods/BoringSSL-GRPC/ssl/d1_both.cc:297-457 | the same of the object, of everything that ever happened to it |
| `DtlsDelivery.DeliversTheFlight` | Spartans/Pods/BoringSSL-GRPC/ssl/d1_both.cc:297-438 | whatever fragments of the sender's messages arrive, in any order, repeated, overlapping or lost, and however the read epoch changes meanwhile, what is delivered is exactly the sender's unfragmented messages, in order from the first |
| `DtlsDelivery.CoverageExact` | Spartans/Pods/BoringSSL-GRPC/ssl/d1_both.cc:211-251 | for every message not taken yet the receiver holds exactly the bytes that reached its window |
| `DtlsDelivery.CompleteIffCovered` | Spartans/Pods/BoringSSL-GRPC/ssl/d1_both.cc:211-424 | the next message is complete exactly when the fragments that reached the window cover it, and then its bytes are the sender's |
| `DtlsPacking.RawIsStored` | Spartans/Pods/BoringSSL-GRPC/ssl/d1_both.cc:511-537 | a message with its header in unfragmented form parses as one fragment that is all of the message, under its number |
| `DtlsSender.Sender.AddMessage` | Spartans/Pods/BoringSSL-GRPC/ssl/d1_both.cc:511-598 | a handshake message is stored in unfragmented form, under the next number and in the write epoch, at most seven to a flight; a message after a flushed flight starts a new one, and within a flight the account of what was accepted goes on |
| `DtlsSender.Sender.AddChangeCipherSpec` | Spartans/Pods/BoringSSL-GRPC/ssl/d1_both.cc:555-602 | the same of a ChangeCipherSpec, which has no number |
| `DtlsSender.Sender.SetWriteState` | Spartans/Pods/BoringSSL-GRPC/ssl/dtls_method.cc:97-107 | the old protection is kept for the previous epoch; the epoch has 16 bits |
| `DtlsSender.SendableIff` | Spartans/Pods/BoringSSL-GRPC/ssl/d1_both.cc:644-667 | what a sender stores can be sent exactly while its write epoch is the current or the previous one |
| `DtlsSender.Sender.SealNextMessage` | Spartans/Pods/BoringSSL-GRPC/ssl/d1_both.cc:644-734 | the outcome, the record's length, its piece and the new offset are those of the specification, for any answer of the record layer |
| `DtlsPacking.OneProtection` | Spartans/Pods/BoringSSL-GRPC/ssl/d1_both.cc:644-667 | a message of the current epoch is sealed the same whatever the protection of the previous one, and the other way round |
| `DtlsPacking.SealedLength` | Spartans/Pods/BoringSSL-GRPC/ssl/d1_both.cc:644-734 | what is sealed is of the current or the previous epoch and has the length that the record layer answered under that epoch's protection; the longest record would have fitted, and one that leaves a part of its message would have filled the room |
| `DtlsPacking.TryContinues` | Spartans/Pods/BoringSSL-GRPC/ssl/d1_both.cc:644-734 | what is sealed is the flight's next piece: a fragment that starts where the last ended and is empty only for an empty message; the position moves behind it |
| `DtlsSender.Sender.SealNextPacket` | Spartans/Pods/BoringSSL-GRPC/ssl/d1_both.cc:739-780 | builds exactly the packet of the specification, and fails exactly if sealing failed or nothing fitted |
| `DtlsPacking.PackCarries` | Spartans/Pods/BoringSSL-GRPC/ssl/d1_both.cc:739-780 | a packet fits the room, its pieces carry the flight from the old position to the new, and it has none exactly if the position did not move |
| `DtlsPacking.PacketLength` | Spartans/Pods/BoringSSL-GRPC/ssl/d1_both.cc:739-780 | the length that is held against the room is the sum of the record layer's answers for its pieces |
| `DtlsPacking.SentInDatagrams` | Spartans/Pods/BoringSSL-GRPC/ssl/d1_both.cc:782-827 | so is the length of every datagram of a call, and the datagrams follow each other without gaps |
| `DtlsPacking.MovesButFails` | Spartans/Pods/BoringSSL-GRPC/ssl/d1_both.cc:739-780 | a packet is given up after it moved the position exactly if a message behind its first is refused: all messages before it fit, and it is not of a current epoch, not as it was stored, or the record layer refuses it with room left |
| `DtlsPacking.ErrorIff` | Spartans/Pods/BoringSSL-GRPC/ssl/d1_both.cc:644-780 | a packet is given up exactly if some message is refused behind messages that all fit, by the guards of the branches that fail |
| `DtlsSender.Sender.UpdateMtu` | Spartans/Pods/BoringSSL-GRPC/ssl/d1_both.cc:615-632 | an MTU of less than 228 is replaced, unless queries are off: by the transport's answer if that is from 228 up to 2^30, else by 1472 |
| `DtlsSender.Sender.SendPacket` | Spartans/Pods/BoringSSL-GRPC/ssl/d1_both.cc:797-813 | a datagram the transport refuses leaves the position where it was; an accepted one is recorded with its pieces and length; only a packet that was given up may have moved the position, and then the account is marked broken |
| `DtlsSender.Sender.SendFlight` | Spartans/Pods/BoringSSL-GRPC/ssl/d1_both.cc:782-827 | the position, the pieces and lengths of the accepted datagrams, the result and whether anything was passed over are those of the specification; success reaches the end of the flight; neither success nor a record layer that never refuses breaks the account, and while that is not broken what was accepted since the last rewind carries the flight up to the position, each datagram at most the MTU |
| `DtlsPacking.SendCarries` | Spartans/Pods/BoringSSL-GRPC/ssl/d1_both.cc:782-827 | under any refusals of the record layer and the transport the accepted datagrams carry messages once and in order, as contiguous fragments, each at most the MTU; up to the position unless something was passed over |
| `DtlsPacking.AccountHoldsIff` | Spartans/Pods/BoringSSL-GRPC/ssl/d1_both.cc:782-827 | what was accepted carries the flight up to the position the call leaves exactly unless, in some packet, a message behind the first is refused; the condition is that of the failing branches |
| `DtlsPacking.PassesOverAMessage` | Spartans/Pods/BoringSSL-GRPC/ssl/d1_both.cc:739-813 | the client's last flight, with any ClientKeyExchange that fits and any messages behind the ChangeCipherSpec: if the ChangeCipherSpec is not sealed, the ClientKeyExchange in front of it is never sent and the next call goes on behind it |
| `DtlsPacking.NeverLost` | Spartans/Pods/BoringSSL-GRPC/ssl/d1_both.cc:782-827 | if the record layer never refuses and every message can be sent, nothing is ever passed over, whatever the room and the transport |
| `DtlsPacking.SendsAll` | Spartans/Pods/BoringSSL-GRPC/ssl/d1_both.cc:782-827 | if no message, neither the room, the record layer nor the transport stands in the way, one call sends the whole flight |
| `DtlsSender.Sender.FlushFlight` | Spartans/Pods/BoringSSL-GRPC/ssl/d1_both.cc:829-834 | marks the flight as sent, so that the next message starts another, and sends it with the outcome of SendFlight |
| `DtlsSender.Sender.Retransmit` | Spartans/Pods/BoringSSL-GRPC/ssl/d1_both.cc:836-845 | sends the flight from its start again; after a success the datagrams of this call alone carry the whole flight, whatever happened before, and if the record layer never refuses the account is intact |
| `DtlsEndToEnd.PayloadConserved` | Spartans/Pods/BoringSSL-GRPC/ssl/d1_both.cc:644-780 | what the pieces carry, followed by what is still to be sent, is the flight |
| `DtlsEndToEnd.FullPass` | Spartans/Pods/BoringSSL-GRPC/ssl/d1_both.cc:782-827 | a full pass carries exactly the flight's bytes |
| `DtlsEndToEnd.PiecesAreCut` | Spartans/Pods/BoringSSL-GRPC/ssl/d1_both.cc:699-734 | every fragment sent was cut from its message |
| `DtlsEndToEnd.FlightArrives` | Spartans/Pods/BoringSSL-GRPC/ssl/d1_both.cc:152-424 | end to end: once all pieces of the next message have reached the receiver's window, in any order and repetition and whatever MTUs cut them, the message is complete and its bytes are the ones the sender hashed |
| `DtlsEndToEnd.SentFlightArrives` | Spartans/Pods/BoringSSL-GRPC/ssl/d1_both.cc:152-845 | the same of the sender and the receiver objects: after a flush or retransmission that reached the end with its account intact, if nothing arrives but that and what was sent earlier, the receiver can hand out its next message once all of it reached the window, with the bytes the sender stored and hashed |
| `DtlsEndToEnd.ReceiverHasHistory` | Spartans/Pods/BoringSSL-GRPC/ssl/d1_both.cc:297-845 | every message a receiver object has taken is the one the sender object numbered so, if nothing arrived but what was sent |
| `DtlsEndToEnd.RecordOfPiece` | Spartans/Pods/BoringSSL-GRPC/ssl/d1_both.cc:699-734 | the record of a fragment is read as that fragment |
| `PbVarint.VarintRoundTrip` | Spartans/Pods/nanopb/pb_decode.c:250-270 | every 64-bit value takes at most ten bytes and is read back, whatever follows |
| `PbVarint.Varint32RoundTrip` | Spartans/Pods/nanopb/pb_decode.c:182-247 | the 32-bit decoder accepts every canonical 32-bit value |
| `PbVarint.Varint32Exact` | Spartans/Pods/nanopb/pb_decode.c:182-247 | what the 32-bit decoder makes of every canonical 64-bit varint: it accepts 32-bit values, and those with bits 31 and 63 set and each seven bits in between, from bit 35 on, equal; it yields the low 32 bits |
| `PbVarint.BitsAreDropped` | Spartans/Pods/nanopb/pb_decode.c:182-270 | a concrete input that one decoder reads as 7 times 2^32 and the other as zero: bits 32 to 34 of a fifth byte that is not the last are dropped |
| `PbVarint.Negative32RoundTrip` | Spartans/Pods/nanopb/pb_decode.c:182-247 | the 32-bit decoder accepts every sign-extended negative number and yields its low 32 bits |
| `PbVarint.DecodersAgree` | Spartans/Pods/nanopb/pb_decode.c:182-270 | of all inputs that the 64-bit decoder accepts the 32-bit one accepts exactly those whose fifth byte, if it is the last, has four bits and whose bytes from the sixth on are zeros or, for a negative number, the sign; it takes the same bytes and yields the number modulo 2^32 |
| `PbVarint.SameNumber` | Spartans/Pods/nanopb/pb_decode.c:182-270 | for all inputs that both accept: they yield the same number exactly if the fifth byte has no bit from 32 on and the later digits are zero, and the same signed number otherwise exactly if all these bits are set |
| `PbVarint.ZigzagRoundTrip` | Spartans/Pods/nanopb/pb_encode.c:596-605 | zigzag is a bijection between signed and unsigned 64-bit numbers |
| `PbVarint.NegativeIsSignExtended` | Spartans/Pods/nanopb/pb_encode.c:549-571 | the encoder without 64-bit integers produces exactly the 64-bit sign-extended form |
| `PbSchema.Find` | Spartans/Pods/nanopb/pb_common.c:78-95 | the first field with a tag, or none exactly if no field has it |
| `PbSchema.Defaults` | Spartans/Pods/nanopb/pb_decode.c:812-895 | every field at its declared default, a submessage recursively, arrays and unions empty |
| `PbWire.Ranges` | Spartans/Pods/nanopb/pb_decode.c:1289-1389 | the numbers that a field of each type and size takes |
| `PbLimits.EncodesIff` | Spartans/Pods/nanopb/pb_encode.c:126-392 | a message is encoded exactly if, at every level, no array is longer than its declaration and no bytes that are sent lack room for their size in the field |
| `PbEncoding.UnionFits` | Spartans/Pods/nanopb/pb_encode.c:376-385 | the member that which_ names has data of its type |
| `PbIterator.FieldsApart` | Spartans/Pods/nanopb/pb_common.c:20-76 | a field outside a union does not share its place with a later field |
| `PbIterator.NextPlace` | Spartans/Pods/nanopb/pb_common.c:20-76 | the next field begins behind this one, all entries of an array included, and what its offset says further, or in the same place in a union |
| `PbIterator.MembersTogether` | Spartans/Pods/nanopb/pb_common.c:20-76 | the members laid over a union's first share its place and its which_ tag |
| `PbIterator.FieldIter.Begin` | Spartans/Pods/nanopb/pb_common.c:8-18 | the iterator is at the first field; there is none exactly in an empty message |
| `PbIterator.FieldIter.Next` | Spartans/Pods/nanopb/pb_common.c:20-76 | moves on by one, and back to the start after the last; the addresses and the required-field number stay those the position alone determines |
| `PbIterator.FieldIter.Find` | Spartans/Pods/nanopb/pb_common.c:78-95 | from any start a tag is found exactly if a field has it; otherwise the iterator is back where it was |
| `PbIterator.FieldIter.MarkSeen` | Spartans/Pods/nanopb/pb_decode.c:988-993 | sets the bit of the field in the words of required fields |
| `PbIterator.FieldIter.CountRequired` | Spartans/Pods/nanopb/pb_decode.c:1012-1025 | from wherever decoding left off: the number of required fields, at most 64 |
| `PbIterator.FieldIter.CheckRequired` | Spartans/Pods/nanopb/pb_decode.c:1006-1046 | the check passes exactly if every tracked required field was seen |
| `PbRequired.OrBit` | Spartans/Pods/nanopb/pb_decode.c:988-993 | setting the bit of a number adds exactly that number |
| `PbRequired.CheckSeen` | Spartans/Pods/nanopb/pb_decode.c:1027-1046 | the words and the remaining bits are full exactly if every number below the count was seen |
| `PbRequired.SeenByNumber` | Spartans/Pods/nanopb/pb_decode.c:1006-1046 | all numbers below the count exactly if all tracked fields |
| `PbRequired.SeenIfRead` | Spartans/Pods/nanopb/pb_decode.c:919-997 | a tracked field counts as seen exactly if the run decoded it |
| `PbRequired.RequiredFields` | Spartans/Pods/nanopb/pb_decode.c:901-1049 | decoding succeeds exactly if nothing in the input is in error and each of the first 64 required fields is in it |
| `PbRequired.AllRequiredRead` | Spartans/Pods/nanopb/pb_decode.c:1006-1046 | with at most 64 required fields, a message that is decoded has every one of them |
| `PbOutput.OStream.Write` | Spartans/Pods/nanopb/pb_encode.c:72-119 | succeeds exactly if there is room, and then adds exactly the bytes |
| `PbOutput.VarintBytes` | Spartans/Pods/nanopb/pb_encode.c:574-594 | the marking loop and the unmarked last byte give the varint, in at most ten bytes |
| `PbOutput.OStream.PutVarint` | Spartans/Pods/nanopb/pb_encode.c:574-594 | writes exactly the varint |
| `PbOutput.NegativeVarintBytes` | Spartans/Pods/nanopb/pb_encode.c:549-571 | the compensating loop gives the 64-bit sign-extended varint, in at most ten bytes |
| `PbOutput.OStream.PutTag` | Spartans/Pods/nanopb/pb_encode.c:635-639 | writes exactly the tag |
| `PbOutput.OStream.PutString` | Spartans/Pods/nanopb/pb_encode.c:674-680 | writes exactly the length and the bytes |
| `PbOutput.OStream.PutNumber` | Spartans/Pods/nanopb/pb_encode.c:734-808 | the number encoders write exactly the specified bytes |
| `PbOutput.OStream.PutValue` | Spartans/Pods/nanopb/pb_encode.c:734-868 | a value of any type writes exactly its encoding, or fails exactly if it has none or no room |
| `PbOutput.OStream.PutTagged` | Spartans/Pods/nanopb/pb_encode.c:641-672 | the tag with the wire type of the field, then the value |
| `PbOutput.OStream.PutItems` | Spartans/Pods/nanopb/pb_encode.c:126-211 | the entries in order, each with a tag or bare |
| `PbOutput.OStream.PutPacked` | Spartans/Pods/nanopb/pb_encode.c:136-183 | the length sent before a packed array is the length of its entries, counted for fixed widths and by a sizing stream for the others |
| `PbOutput.OStream.PutArray` | Spartans/Pods/nanopb/pb_encode.c:126-211 | an array longer than its declaration is an error; an empty one writes nothing |
| `PbOutput.OStream.PutField` | Spartans/Pods/nanopb/pb_encode.c:307-392 | presence by kind: always, has_ flag, not at its default, array, chosen member |
| `PbOutput.OStream.PutMessage` | Spartans/Pods/nanopb/pb_encode.c:494-516 | every field in order: encoding succeeds exactly if it is defined and fits, to a buffer and to a sizing stream alike, and adds exactly the encoding |
| `PbOutput.OStream.PutSubmessage` | Spartans/Pods/nanopb/pb_encode.c:682-730 | the size counted by the sizing pass is what the writing pass writes, so the error for a size that changed cannot occur, and the length prefix is exact at every level |
| `PbOutput.EncodedSize` | Spartans/Pods/nanopb/pb_encode.c:533-542 | the size reported is the length of the encoding, or none exactly if encoding fails |
| `PbInput.IStream.ReadByte` | Spartans/Pods/nanopb/pb_decode.c:136-152 | takes the first byte, or fails exactly at the end |
| `PbInput.IStream.Read` | Spartans/Pods/nanopb/pb_decode.c:85-132 | takes exactly n bytes, or fails exactly if there are fewer |
| `PbInput.IStream.ReadVarint32` | Spartans/Pods/nanopb/pb_decode.c:182-242 | the loop with its 8-bit position counter is the 32-bit decoder, and reports end of input exactly on an empty one |
| `PbInput.IStream.ReadVarint` | Spartans/Pods/nanopb/pb_decode.c:250-270 | the loop with its shifts and ors is the 64-bit decoder |
| `PbInput.IStream.PassVarint` | Spartans/Pods/nanopb/pb_decode.c:273-282 | skips a varint of any length |
| `PbInput.IStream.PassField` | Spartans/Pods/nanopb/pb_decode.c:284-326 | the stream is left what the specification leaves, or fails with it |
| `PbWire.SkipsPayload` | Spartans/Pods/nanopb/pb_decode.c:273-326 | every varint, eight bytes, length-delimited string and four bytes are skipped whole under their wire types 0, 1, 2 and 5, whatever follows |
| `PbInput.IStream.MakeSubstream` | Spartans/Pods/nanopb/pb_decode.c:367-380 | the substream is exactly the chunk, and the stream is left what follows it |
| `PbInput.IStream.CloseSubstream` | Spartans/Pods/nanopb/pb_decode.c:382-395 | the stream goes on after the chunk, whatever the substream left |
| `PbInput.ClampedFits` | Spartans/Pods/nanopb/pb_decode.c:1289-1372 | a cast to the field's size changes the number exactly if it does not fit the field |
| `PbInput.IStream.ReadNumber` | Spartans/Pods/nanopb/pb_decode.c:1240-1389 | the number decoders: exactly the specified number, with its checks |
| `PbInput.IStream.ReadValue` | Spartans/Pods/nanopb/pb_decode.c:1289-1508 | the decoders of all types, with their length checks |
| `PbInput.IStream.ReadSubmessage` | Spartans/Pods/nanopb/pb_decode.c:1463-1485 | a submessage is merged into what is there, in an array into defaults, and takes its whole chunk |
| `PbInput.IStream.ReadField` | Spartans/Pods/nanopb/pb_decode.c:401-475 | the decoders of the four kinds of field, and the check of a union's old tag |
| `PbInput.IStream.ReadPacked` | Spartans/Pods/nanopb/pb_decode.c:414-446 | entries while there is input and room, and an error if input is left |
| `PbInput.IStream.ReadRecords` | Spartans/Pods/nanopb/pb_decode.c:919-997 | the loop over records, with unknown fields skipped and a zero tag ending it, and the bits of the required fields seen |
| `PbInput.IStream.ReadInto` | Spartans/Pods/nanopb/pb_decode.c:901-1049 | pb_decode_noinit: the fields, the rest of the input, and success exactly with all required fields |
| `PbInput.IStream.ReadMessage` | Spartans/Pods/nanopb/pb_decode.c:1051-1063 | pb_decode: the same from the defaults |
| `PbConcat.LoopConcat` | Spartans/Pods/nanopb/pb_decode.c:901-1049 | decoding a concatenation is decoding the second input where the first left off |
| `PbConcat.UnknownFieldIgnored` | Spartans/Pods/nanopb/pb_decode.c:919-997 | a whole record with an unknown tag, at any boundary between fields, changes nothing |
| `PbWire.UnknownRecordIgnored` | Spartans/Pods/nanopb/pb_decode.c:919-997 | the same of records in terms of their bytes: a tag the message does not have and a varint, eight bytes, a length-delimited string or four bytes |
| `PbWire.NumberSent` | Spartans/Pods/nanopb/pb_encode.c:549-633 | what an encoded number is on the wire: a varint, or its four or eight bytes with the lowest first |
| `PbWire.FieldSent` | Spartans/Pods/nanopb/pb_encode.c:641-868 | what is sent of any value of any field is a record of that field's tag whose payload is whole for its wire type, and which wire type that is |
| `PbWire.SentFieldIgnored` | Spartans/Pods/nanopb/pb_decode.c:919-997 | whatever an encoder sends of one field, a reader whose message does not have the tag ignores, at any boundary between fields |
| `PbWire.TerminatorStops` | Spartans/Pods/nanopb/pb_decode.c:293-314 | a zero byte ends a message and what follows it is left |
| `PbWire.TagZeroRefused` | Spartans/Pods/nanopb/pb_decode.c:919-997 | a message type without fields takes a record of tag zero for its own, and refuses it |
| `PbConcat.DecodeConcat` | Spartans/Pods/nanopb/pb_decode.c:901-1049 | without required fields and zero terminators, decoding a ++ b is decoding a and then b into the same message |
| `PbMerge.SubmessageTwice` | Spartans/Pods/nanopb/pb_decode.c:1463-1485 | a submessage that comes in two records, or a part of it, is decoded as if its two parts came in one |
| `PbMerge.NumberAppends` | Spartans/Pods/nanopb/pb_decode.c:449-459 | an array takes a number that comes on its own, not packed, and is then longer by it; a full one refuses |
| `PbMerge.PackedArrayAppends` | Spartans/Pods/nanopb/pb_decode.c:414-446 | another packed part goes behind what the array holds, or is refused exactly if it does not fit |
| `PbMerge.LastMemberWins` | Spartans/Pods/nanopb/pb_decode.c:461-470 | the last member of a union that comes is what the union holds, whichever it held before |
| `PbMerge.UnknownMemberRefused` | Spartans/Pods/nanopb/pb_decode.c:1104-1132 | a union that names no field of the message takes no member |
| `PbMerge.EmptyFixedLength` | Spartans/Pods/nanopb/pb_decode.c:1487-1508 | an empty string sets a field of bytes of fixed length to zeros |
| `PbSafety.NumberByWidth` | Spartans/Pods/nanopb/pb_decode.c:1289-1348 | a varint stands for the numbers that differ from it by a multiple of 2^64, or of 2^32 in a signed field of at most 32 bits: the decoder yields the one in the range of the field, and fails exactly if there is none |
| `PbSafety.DecodedHolds` | Spartans/Pods/nanopb/pb_decode.c:901-1508 | whatever the input, what is decoded fits the structure at every level: numbers in the range of their C type, strings with their zero and bytes with their size in the field, and no array longer than declared |
| `PbRoundTrip.NumberRoundTrip` | Spartans/Pods/nanopb/pb_decode.c:1240-1389 | every number in the range of its field comes back |
| `PbRoundTrip.ValueOutcome` | Spartans/Pods/nanopb/pb_decode.c:1289-1508 | every value that encodes comes back, or fails exactly for a string that leaves no room for its zero |
| `PbRoundTrip.PackedOutcome` | Spartans/Pods/nanopb/pb_decode.c:414-446 | a packed array comes back entry by entry |
| `PbRoundTrip.ArrayOutcome` | Spartans/Pods/nanopb/pb_decode.c:410-458 | an array comes back, packed or not |
| `PbRoundTrip.ZeroIff` | Spartans/Pods/nanopb/pb_encode.c:213-305 | a number, string or bytes value without presence of its own is left out exactly if it is zero or empty |
| `PbRoundTrip.ZeroIsDefault` | Spartans/Pods/nanopb/pb_encode.c:213-305 | whatever is left out, a submessage too, is what the decoder starts from |
| `PbRoundTrip.FieldOutcome` | Spartans/Pods/nanopb/pb_encode.c:307-392 | each kind of field comes back with the value that was put in, one without presence too, whether it was sent or left out; has_ flags and unions that are not set come back at their defaults |
| `PbRoundTrip.MessageOutcome` | Spartans/Pods/nanopb/pb_decode.c:901-1063 | round trip: decoding an encoded message takes all of its bytes and yields the values that were put in, those without has_ flag or choice at their defaults, exactly if every string that was sent leaves room for its zero; otherwise it fails |
| `PbRoundTrip.FullStringIsLost` | Spartans/Pods/nanopb/pb_decode.c:1428-1461 | a concrete message: a required string that fills its field is encoded and cannot be decoded |
| `TlsBuffer.SlackIff` | Spartans/Pods/BoringSSL-GRPC/ssl/ssl_buffer.cc:47-97 | a capacity that EnsureCap grants leaves slack exactly if, wherever the allocator puts the buffer and however it is consumed, the 16-bit offset never wraps |
| `TlsBuffer.Buffer.EnsureCap` | Spartans/Pods/BoringSSL-GRPC/ssl/ssl_buffer.cc:47-81 | room for the request without losing contents, for every capacity; larger than 16 bits fails; the slack is kept by a request that leaves it |
| `TlsBuffer.Buffer.Write` | Spartans/Pods/BoringSSL-GRPC/ssl/ssl_buffer.cc:83-88 | the bytes go behind the contents |
| `TlsBuffer.Buffer.Consume` | Spartans/Pods/BoringSSL-GRPC/ssl/ssl_buffer.cc:90-97 | the 16-bit offset, size and capacity, and the contents without their front unless the offset wraps; with slack it never does |
| `TlsBuffer.Buffer.Clear` | Spartans/Pods/BoringSSL-GRPC/ssl/ssl_buffer.cc:39-45 | nothing is left |
| `TlsWrite.Connection.AddRecordToFlight` | Spartans/Pods/BoringSSL-GRPC/ssl/s3_both.cc:135-165 | succeeds exactly if the record layer seals; the record then goes to the end of the flight, nothing sealed before is lost, and the order of all bytes is kept |
| `TlsWrite.Connection.AddMessage` | Spartans/Pods/BoringSSL-GRPC/ssl/s3_both.cc:184-205 | succeeds exactly if the record layer seals each of the records that the fragment limit asks for, and at least one; they carry exactly the message, in order; nothing else is sealed and nothing sealed before is lost; on failure they carry the front of the message |
| `TlsWrite.PiecesExact` | Spartans/Pods/BoringSSL-GRPC/ssl/s3_both.cc:184-205 | how many records that is: enough for the message, and not one more than needed |
| `TlsWrite.Connection.AddChangeCipherSpec` | Spartans/Pods/BoringSSL-GRPC/ssl/s3_both.cc:207-218 | one record with the single byte, exactly if it is sealed |
| `TlsWrite.Connection.FlushBuffer` | Spartans/Pods/BoringSSL-GRPC/ssl/ssl_buffer.cc:239-252 | for any answers of the transport: bytes leave from the front, as many as it takes before its first refusal, which is then the result; success empties the buffer |
| `TlsWrite.PushesAll` | Spartans/Pods/BoringSSL-GRPC/ssl/ssl_buffer.cc:239-252 | a transport that always takes something takes everything |
| `TlsWrite.Connection.FlushFlight` | Spartans/Pods/BoringSSL-GRPC/ssl/s3_both.cc:231-279 | with a flight, the write buffer first and then the flight, as far as the transport goes; success means that everything sealed has been accepted, in sealing order, and comes whenever the transport always takes something and flushes; without a flight nothing happens, and after a shutdown nothing is sent |
| `TlsWrite.Connection.WritePending` | Spartans/Pods/BoringSSL-GRPC/ssl/s3_pkt.cc:202-218 | succeeds exactly if it is a retry of the same kind, no shorter, from the same place unless buffers may move, and the transport takes what is buffered; it then reports all of the write, and otherwise the write stays pending |
| `TlsWrite.Connection.MoveFlight` | Spartans/Pods/BoringSSL-GRPC/ssl/s3_pkt.cc:250-272 | the rest of the flight moves in front of the record |
| `TlsWrite.Connection.AppendSealed` | Spartans/Pods/BoringSSL-GRPC/ssl/s3_pkt.cc:258-284 | the record is sealed behind what is buffered |
| `TlsWrite.Connection.DoWrite` | Spartans/Pods/BoringSSL-GRPC/ssl/s3_pkt.cc:221-289 | succeeds exactly if the pending write is retried and goes out, or the record can be sealed and goes out behind the flight; bytes sealed are always the bytes the transport accepted, then the write buffer, then the flight; a call seals at most one record, for the bytes it was given, and exactly if nothing was pending, the buffer was empty, it could grow and the record layer did not refuse; if the record layer refuses, exactly the flight is left in the buffer |
| `TlsWrite.Connection.WritesIfSmooth` | Spartans/Pods/BoringSSL-GRPC/ssl/s3_pkt.cc:221-289 | a write that resumes what is pending, or starts on an empty buffer that can grow, succeeds if neither the record layer nor the transport refuses |
| `TlsWrite.Connection.WriteAppData` | Spartans/Pods/BoringSSL-GRPC/ssl/s3_pkt.cc:129-200 | progress: a first write, or a retry of the one that is pending, succeeds if neither the record layer nor the transport refuses and the buffer can grow, reports all of the input, or with partial writes one record more, and then everything sealed but a flight has reached the transport in order; a try that fails can be resumed, unless the record layer refused behind a flight. Conservation: what was sealed since the first call is a prefix of the input and a positive result reports exactly that prefix; nothing sealed or sent before is lost |
| `TlsWrite.WriteUntilDone` | Spartans/Pods/BoringSSL-GRPC/ssl/s3_pkt.cc:129-200 | a caller that retries one buffer until something is reported as written: from an empty session, the application bytes sealed over all its calls are then exactly the front of the buffer that is reported; and something is, if the record layer never refuses and the transport accepts during one of the tries |
| `TlsWrite.Connection.DispatchAlert` | Spartans/Pods/BoringSSL-GRPC/ssl/s3_pkt.cc:405-423 | the alert is one record, written once, and it succeeds exactly if that write does |
| `TlsWrite.Connection.SendAlert` | Spartans/Pods/BoringSSL-GRPC/ssl/s3_pkt.cc:377-403 | after the alert the connection is shut down; a second alert or one behind a busy buffer writes nothing |
| `TlsCipherChoice.Find` | Spartans/Pods/BoringSSL-GRPC/ssl/handshake_server.cc:398-401 | the place of a cipher in the other list, or none exactly if it is not there |
| `TlsCipherChoice.ChooseByGroups` | Spartans/Pods/BoringSSL-GRPC/ssl/handshake_server.cc:390-421 | the choice is the cipher that comes earliest in the client's list among the first group with an acceptable one; none exactly if no closed group has any |
| `TlsCipherChoice.ChooseInOrder` | Spartans/Pods/BoringSSL-GRPC/ssl/handshake_server.cc:390-421 | without groups, the first acceptable cipher |
| `TlsCipherChoice.ChooseCipher` | Spartans/Pods/BoringSSL-GRPC/ssl/handshake_server.cc:357-424 | either preference; null exactly if nothing is acceptable, given that the last group is closed |
| `ConstantTime.MsbW` | Spartans/Pods/BoringSSL-GRPC/crypto/internal.h:244-246 | all ones exactly if the top bit is set |
| `ConstantTime.IsZeroW` | Spartans/Pods/BoringSSL-GRPC/crypto/internal.h:303-316 | all ones exactly for zero |
| `ConstantTime.EqW` | Spartans/Pods/BoringSSL-GRPC/crypto/internal.h:325-328 | all ones exactly for equal words |
| `ConstantTime.SelectW` | Spartans/Pods/BoringSSL-GRPC/crypto/internal.h:351-355 | the first word under a full mask, the second under an empty one |
| `ConstantTime.IsZero8` | Spartans/Pods/BoringSSL-GRPC/crypto/internal.h:320-322 | the byte forms |
| `ConstantTime.Eq8` | Spartans/Pods/BoringSSL-GRPC/crypto/internal.h:332-334 | the byte forms |
| `ConstantTime.Select8` | Spartans/Pods/BoringSSL-GRPC/crypto/internal.h:359-362 | the byte forms |
| `ConstantTime.SelectPremaster` | Spartans/Pods/BoringSSL-GRPC/ssl/handshake_server.cc:1142-1178 | the branch-free selection is the simple one: the last 48 bytes of the block exactly if it is validly padded and begins with the client's version, else the random secret |
| `Refcount.StepKeeps` | Spartans/Pods/BoringSSL-GRPC/crypto/refcount_c11.c:37-65 | every action of every thread keeps the count equal to the live references until it saturates |
| `Refcount.RunKeeps` | Spartans/Pods/BoringSSL-GRPC/crypto/refcount_c11.c:37-65 | in every interleaving of any number of threads that call and hand references to each other, with any spurious failures: the count is the live references until it saturates, no thread aborts and at most one decrement returns one, for the last reference |
| `Refcount.SwapsCollide` | Spartans/Pods/BoringSSL-GRPC/crypto/refcount_c11.c:37-65 | a run in which two threads are in their loops and one swap fails because the other's succeeded |
| `Refcount.Begins` | Spartans/Pods/BoringSSL-GRPC/crypto/refcount_c11.c:37-65 | an idle holder of a reference enters either loop with the count it loads |
| `Refcount.SwapSucceeds` | Spartans/Pods/BoringSSL-GRPC/crypto/refcount_c11.c:37-65 | a swap that finds the count its thread expects, and does not fail spuriously, moves the count by one, up or down, ends the call, and reports the last reference exactly when the count was one |
| `Refcount.SwapFails` | Spartans/Pods/BoringSSL-GRPC/crypto/refcount_c11.c:37-65 | a swap that finds another count changes nothing but the expectation of its thread |
| `Refcount.StaysSaturated` | Spartans/Pods/BoringSSL-GRPC/crypto/refcount_c11.c:37-65 | a saturated count never changes |
| `Refcount.SwapIsAtomic` | Spartans/Pods/BoringSSL-GRPC/crypto/refcount_c11.c:37-65 | each completed call is one whole increment or decrement of the specification |
| `Refcount.LockedCount.Inc` | Spartans/Pods/BoringSSL-GRPC/crypto/refcount_lock.c:29-35 | the locked version is the specification's increment |
| `Refcount.LockedCount.DecAndTestZero` | Spartans/Pods/BoringSSL-GRPC/crypto/refcount_lock.c:37-51 | the locked version is the specification's decrement, and aborts exactly on a count of zero |

## Left out

The Swift sources, and of the vendored libraries everything not named above. In
particular:

- TLS 1.3, early data, SSL 3.0, the V2 ClientHello, renegotiation and the DTLS cookie
  exchange: the machines start below TLS 1.3 and the states for them are passed through.
- Cryptography, certificate checks, parsing and extension negotiation: a verdict stands
  for each, and a sealed record is opaque bytes of bounded length. A machine sends each
  handshake message in records of its own; hashes are the message list itself. That a
  part of a message is left over at a key change is one of the failures a verdict stands
  for.
- Fields of the handshake object that do not steer the message flow (keys, sessions,
  signature algorithms). A required client certificate that is missing is one of the
  failures a verdict stands for.
- Allocation failures, except where the source turns them into the error the model has.
- DtlsReceiver.Receiver.TakeMessage: the 16-bit message number is not allowed to wrap;
  after 65536 messages the numbers of the first would be taken for new ones.
- DtlsSender.Sender.AddMessage: the same of the number of the message that is sent. The
  transcript update that goes with it is not part of this model.
- TlsWrite.Connection.DoWrite: a record that, with the flight in front of it, would ask
  for one of the seven capacities without slack is excluded.
- TlsWrite.Connection.WriteAppData: the same of every record up to the fragment limit,
  with the flight or without it. A flight too long for the buffer is not excluded.
- TlsWrite.Connection.DispatchAlert: the same of the alert.
- TlsWrite.Connection.SendAlert: the same of the alert.
- TlsWrite.WriteUntilDone: the same as for WriteAppData.
- DTLS timers, and the order in which datagrams leave the transport.
- nanopb callbacks, extensions, pointer fields, `pb_release` and fixed-count arrays, and
  streams other than a buffer. Tags are distinct and not zero, nesting is finite.
- The message structure is a value passed to the encoder and returned by the decoder,
  not memory updated in place; the iterator still computes the offsets. What a failed
  decoder leaves in the structure is not described.
- PbOutput.OStream.PutMessage: every size that is counted fits a `size_t`, which is a
  precondition; sizes are otherwise unbounded.
- PbInput.IStream.Read: the bytes are a slice of the buffer instead of a copy.
- PbRoundTrip.MessageOutcome: the encoding is shorter than 2^32 bytes, the range of the
  32-bit length prefixes.
- `constant_time_lt_w` and `constant_time_ge_w`, which the premaster selection does not
  use.
- CPU probing, memory and thread wrappers, `ssl_asn1.cc`, `handoff.cc`, BIO adaptors and
  SRTP tables: the model needs nothing of them.

# IPVS concept: a verified model

IPVS addresses services by names of the form `<onion service id>.ipvs`. A client
turns that name into an onion host. It asks a handshake responder at port 230 of that host how to
get in. It then opens an SSH `direct-tcpip` channel to the offered SSH server. The server hands
the channel to the request handler registered for the destination port. Separately, `ssh_util.py`
holds a decoder for a second address form, `<key hex>.<key type>.ipvs`, which spells out a public
key; nothing in the modelled files ties that form to the addresses `serve` publishes.

This project models the decision and update logic of that system in Dafny, module by module:

- `Text` (text.dfy): the string operations the code relies on, written out over ASCII:
  - `strip`, `lower`, `split`;
  - `str.index`;
  - `bytes.fromhex` and its inverse.
- `SshTypes` (ssh_types.dfy): endpoints, opaque keys, channels, the callbacks the secure-transport
  library makes, and its result codes.
- `SocketUtil` (socket_util.dfy): the relay.
  - `Socket` is a class whose unread input and sent chunks are fields.
  - `Transfer1` is the `while True` copy loop, proved against the function `Reads`.
  - `Transfer` runs two copies.
- `SshUtil` (ssh_util.dfy): the tunnel server of `ssh_util.py`.
  - A per-connection `ServerHandler` class updates `clientIdentity` and `destPort` from the callbacks.
  - `HandleRequest` answers a connection's callbacks with a fresh handler and dispatches its channel.
  - The address decoder `GetPubkeyFromIpvsAddress` is proved to invert the format `<hex>.<type>.ipvs`.
- `SshServerUtil` (ssh_server_util.dfy): the variant server with the info port 230.
  - One `ServerHandler` is shared by a `Server`, with a `pending` table from channel id to port.
  - The dispatch function `Dispatch` gives port 230 priority.
  - The finding below, with its corrected per-connection form `HandleConnection`.
- `IpvsRouter` (ipvs_router.dfy): `connect` and `serve`.
  - The `.ipvs` to `.onion` rewrite, and the handshake request and its address.
  - The method loop `ConnectLoop`, proved against the recursive reference `RunFrom`, with the
    first-success, exhaustion and missing-key characterisations.
  - The final `No_Methods_Available`.
  - The responder `HandshakeHandler`, the port mapping, and the published address.

External effects are parameters:
- what the peer sends (`Socket.incoming`);
- the callbacks a client makes (a script of `ClientMessage`s);
- the channel `transport.accept()` returns;
- whether a registered handler raises;
- the handshake response, and the outcome of each SSH attempt (an oracle sequence).

## Model

| member | source | states |
|---|---|---|
| SocketUtil.Socket.Recv | ipvs_concept/socket_util.py:32 | a read returns at most the requested size from the first undelivered piece, and an empty result exactly when the peer has closed and everything has been read |
| SocketUtil.Socket.Send | ipvs_concept/socket_util.py:35 | the chunk is appended whole to what was sent |
| SocketUtil.RecvStep | ipvs_concept/socket_util.py:32-35 | one non-empty read is the next of the reads still to come, and it strictly lowers what is left, so the loop ends |
| SocketUtil.Transfer1 | ipvs_concept/socket_util.py:30-37 | the copy drains the source and ends at the first empty read; the destination receives exactly the non-empty reads in order, each of 1 to 8192 bytes, and their concatenation is exactly the bytes the peer sent |
| SocketUtil.Transfer | ipvs_concept/socket_util.py:39-47 | both directions are copied to their own end: each side is sent exactly what the other side's peer sent |
| SocketUtil.ReadsFlatten | ipvs_concept/socket_util.py:30-37 | the successive reads reassemble the delivered bytes exactly, nothing lost, duplicated or reordered |
| SocketUtil.ReadsBounded | ipvs_concept/socket_util.py:5 | every read of TRANSFER_BUF_SIZE is non-empty and at most 8192 bytes |
| SshUtil.ServerHandler.constructor | ipvs_concept/ssh_util.py:38-43 | a new handler has no identity and no destination port |
| SshUtil.ServerHandler.CheckAuthPublickey | ipvs_concept/ssh_util.py:45-50 | authentication succeeds if and only if the user is "ipvs"; then the presented key becomes the identity, otherwise the identity is unchanged |
| SshUtil.ServerHandler.GetAllowedAuths | ipvs_concept/ssh_util.py:52-53 | "publickey" is advertised for every user |
| SshUtil.ServerHandler.CheckChannelDirectTcpipRequest | ipvs_concept/ssh_util.py:55-65 | an open succeeds if and only if the host is 127.0.0.1 and the port is registered, whatever the origin; success records the port, refusal is administrative prohibition (code 1) and leaves the port unchanged |
| SshUtil.HandleRequest | ipvs_concept/ssh_util.py:75-97 | each callback of the connection gets the answer it would get alone; with no channel or an inactive one nothing runs; with no recorded port the table lookup raises KeyError before the try, so the channel is not closed; otherwise the handler of the last accepted port runs with the last accepted identity and the channel is closed whether it returns or raises |
| SshUtil.IdentityFromOwnConnection | ipvs_concept/ssh_util.py:76-92 | the identity a handler receives was presented by user "ipvs" on this same connection |
| SshUtil.PortFromOwnConnection | ipvs_concept/ssh_util.py:76-90 | a handler runs only for a port this same connection opened and the server accepted |
| SshUtil.RefusedOpensRunNothing | ipvs_concept/ssh_util.py:59-65 | a connection whose opens were all refused records no port |
| SshUtil.GetPubkeyFromIpvsAddress | ipvs_concept/ssh_util.py:103-116 | a decoded key type always begins with "ssh-" and the rest of it holds no dot |
| SshUtil.KeyOfLabels | ipvs_concept/ssh_util.py:106-116 | a key is returned if and only if the last label is "ipvs", there are at least three labels and the third-from-last is hexadecimal; its type is "ssh-" followed by the second-from-last label and its bytes are the decoding of the third-from-last; otherwise the error is the first check that fails, in the order last label, label count, hex |
| SshUtil.DecodeRoundTrip | ipvs_concept/ssh_util.py:109-116 | decoding `<hex(K)>.<t>.ipvs`, for a lower-case type t without a dot, gives type "ssh-" + t and bytes K |
| SshUtil.DecodeIgnoresLeadingLabels | ipvs_concept/ssh_util.py:111-112 | any text and a dot in front of such an address leave the decoded key unchanged |
| SshUtil.DecodeCaseInsensitive | ipvs_concept/ssh_util.py:104 | an address decodes exactly as its lower-case form does |
| SshUtil.DecodeRejectsNonIpvs | ipvs_concept/ssh_util.py:106-107 | "Not an IPVS address" is raised if and only if the stripped, lower-cased text is neither "ipvs" nor ends in ".ipvs" |
| SshUtil.DecodeNeedsTwoDots | ipvs_concept/ssh_util.py:111 | for an address whose last label is "ipvs", indexing the third-from-last label fails if and only if the address has fewer than two dots |
| SshUtil.SplitCount | ipvs_concept/ssh_util.py:104 | splitting on a separator gives one more part than there are separators |
| Text.Split | ipvs_concept/ssh_util.py:104 | str.split gives at least one part, no part holds the separator, and joining the parts with it gives back the text |
| Text.TrimStartSpec | ipvs_concept/ssh_util.py:104 | the left half of strip removes exactly the leading run of whitespace |
| Text.TrimEndSpec | ipvs_concept/ssh_util.py:104 | the right half of strip removes exactly the trailing run of whitespace |
| Text.StripLower | ipvs_concept/ssh_util.py:104 | stripping and lower-casing can be done in either order |
| Text.LowerIdempotent | ipvs_concept/ssh_util.py:104 | lower-casing twice is lower-casing once |
| Text.HexRoundTrip | ipvs_concept/ssh_util.py:114 | bytes.fromhex inverts the lower-case hex encoding |
| Text.HexDecodeCanonical | ipvs_concept/ssh_util.py:114 | a string that bytes.fromhex accepts is, up to letter case, the hex encoding of its result |
| Text.IndexOf | ipvs_concept/ipvs_router.py:55 | str.index gives the lowest position at which the pattern occurs, and fails only when it occurs nowhere |
| SshServerUtil.ServerHandler.constructor | ipvs_concept/ssh_server_util.py:26-32 | a new handler has an empty pending table |
| SshServerUtil.ServerHandler.CheckAuthPublickey | ipvs_concept/ssh_server_util.py:34-38 | authentication succeeds if and only if the user is "ipvs"; nothing is recorded |
| SshServerUtil.ServerHandler.GetAllowedAuths | ipvs_concept/ssh_server_util.py:40-41 | "publickey" is advertised for every user |
| SshServerUtil.ServerHandler.CheckChannelDirectTcpipRequest | ipvs_concept/ssh_server_util.py:43-53 | an open succeeds if and only if the host is 127.0.0.1 and the port is registered or is 230; success sets the entry for the channel id and changes no other, refusal (code 1) leaves the table unchanged |
| SshServerUtil.PendingAfter | ipvs_concept/ssh_server_util.py:47-50 | every port in the table is one the server answers, so dispatch always finds a handler |
| SshServerUtil.PendingGrows | ipvs_concept/ssh_server_util.py:50 | entries are added and never removed |
| SshServerUtil.PendingFromOpen | ipvs_concept/ssh_server_util.py:47-50 | every entry was there before or comes from an accepted open of that channel id to that port |
| SshServerUtil.Dispatch | ipvs_concept/ssh_server_util.py:74-87 | nothing happens exactly when there is no active channel; an unknown channel id raises KeyError and leaves the channel open; otherwise the info document is sent for port 230, even if 230 is also registered, and the registered handler runs for any other port; the channel is closed in both cases, and only the registered handler's exception is raised again after the close |
| SshServerUtil.Server.constructor | ipvs_concept/ssh_server_util.py:61 | one handler is built per server |
| SshServerUtil.Server.HandleRequest | ipvs_concept/ssh_server_util.py:67-87 | the shared handler answers the connection's callbacks, its table is updated in order, and the channel is dispatched against the updated table |
| SshServerUtil.Callbacks | ipvs_concept/ssh_server_util.py:67-70 | each callback gets the answer it would get alone, and the table moves to PendingAfter |
| SshServerUtil.DispatchChannel | ipvs_concept/ssh_server_util.py:72-87 | the lookup, choice of handler and closing meet Dispatch |
| SshServerUtil.HandleJsonInfo | ipvs_concept/ssh_server_util.py:63-65 | the info document is sent once over the channel |
| SshServerUtil.HandleConnection | ipvs_concept/ssh_server_util.py:67-87 | corrected form: the table holds this connection's opens only, and dispatch uses that table |
| SshServerUtil.OwnConnectionDispatch | ipvs_concept/ssh_server_util.py:77-82 | corrected form: a channel reaches the info sender or a handler only for a port that this connection opened the channel to |
| SshServerUtil.SharedTableCrossesConnections | ipvs_concept/ssh_server_util.py:61-77 | as written: one connection's channel can be dispatched by another connection's open |
| IpvsRouter.OnionHost | ipvs_concept/ipvs_router.py:55-56 | ValueError if and only if ".ipvs" occurs nowhere in the host; otherwise the text before its first occurrence, followed by ".onion" |
| IpvsRouter.HandshakeReq | ipvs_concept/ipvs_router.py:60-62 | the request has exactly one field, "ipvs_version", set to 1 |
| IpvsRouter.HandshakeAddress | ipvs_concept/ipvs_router.py:58 | the handshake goes to port 230 of the onion host |
| IpvsRouter.ConnectLoop | ipvs_concept/ipvs_router.py:72-94 | the for loop ends where the reference RunFrom ends, and it has attempted exactly the ssh_direct methods up to that point, in list order |
| IpvsRouter.RunStep | ipvs_concept/ipvs_router.py:74-91 | a skipped or failed method lets the loop go on with that failure appended |
| IpvsRouter.YieldedIff | ipvs_concept/ipvs_router.py:84-91 | the channel handed over comes from the first ssh_direct attempt that succeeds, and exactly the failures before it, in order, have been collected |
| IpvsRouter.ExhaustedIff | ipvs_concept/ipvs_router.py:72-96 | the loop runs out of methods if and only if every method has its 'type' and every ssh_direct method has its arguments and failed; it then holds all their errors in list order |
| IpvsRouter.MissingKeyIff | ipvs_concept/ipvs_router.py:75-79 | a KeyError ends the loop at method i if and only if i is the first method the loop does not go past, and it lacks its 'type' or is ssh_direct without its arguments |
| IpvsRouter.FailureCount | ipvs_concept/ipvs_router.py:74-91 | when all fail there is one failure and one attempt per ssh_direct method: other methods leave no trace |
| IpvsRouter.OtherMethodsIgnored | ipvs_concept/ipvs_router.py:74-75 | methods of another type, and the outcomes at their positions, do not affect the loop |
| IpvsRouter.UnansweredRequest | ipvs_concept/ipvs_router.py:112-135 | the client reads a reply that is not JSON, on which connect raises the decode error, if and only if its request is not an object whose version equals 1: the responder then closes or raises without sending |
| IpvsRouter.NoMethodsError | ipvs_concept/ipvs_router.py:96-99 | No_Methods_Available carries the failure list if and only if it is non-empty |
| IpvsRouter.Connect | ipvs_concept/ipvs_router.py:53-99 | no handshake and ValueError for a host without ".ipvs"; otherwise the request goes to port 230 of the onion host, a reply that is not JSON raises the decode error, a response without methods raises KeyError, and the outcome is the loop's: the channel, KeyError, or No_Methods_Available |
| IpvsRouter.HandshakeHandler | ipvs_concept/ipvs_router.py:111-135 | a request that is not JSON raises the decode error, JSON that is not an object raises TypeError, an object without the version key raises KeyError; a version equal to 1 (including JSON true) is answered with exactly one ssh_direct method carrying the public SSH endpoint and the encoded host key; anything else is closed with nothing sent |
| IpvsRouter.PortMappings | ipvs_concept/ipvs_router.py:140-142 | only onion port 230 is mapped, to the handshake server's port |
| IpvsRouter.ServeAddress | ipvs_concept/ipvs_router.py:146 | the published address is the service id followed by ".ipvs" |
| IpvsRouter.ServeConnectHost | ipvs_concept/ipvs_router.py:146-147 | connect's rewrite of the published address gives back the service id's onion host, when the id holds no ".ipvs" |
| IpvsRouter.HandshakeRoundTrip | ipvs_concept/ipvs_router.py:116-127 | connect's own request is answered, and the reply the client reads makes the client try exactly the published endpoint once and get its channel, or No_Methods_Available with that one failure |

## Left out

- The Tor and ngrok side (tor_util.py, `expose_to_tor`, `expose_with_ngrok`, `connect_to_tor`): network I/O against external daemons. The handshake response and the attempt outcomes are parameters instead.
- paramiko internals: `Transport`, `start_server`, `accept`, `SSHClient.connect`, `open_channel`, host-key checks and all cryptography. Keys are opaque values, and the callbacks and the accepted channel are parameters.
- `connect_to_ipvs_ssh_server`, `create_tcp_server`, `proxy_pass` and `get_proxy_pass_handler`: socket and library plumbing with no decisions of their own.
- JSON serialisation: messages are datatypes. The info document is given as the bytes `json.dumps(ipvs_info).encode()` produces.
- JSON numbers with a fraction (Python's `1.0 == 1`) are not modelled in the version check. Booleans are.
- The TODO stubs `decode_pubkey_from_str`, `encode_pubkey_to_str`, `generate_pubkey` and `IPVS_Secret_File` have no bodies. The key text of a method is kept as text.
- `receive_all` and `transfer_echo` are not defined in socket_util.py and are not part of this model.
- Threads: `ThreadingMixIn`, `serve_forever`, and the two threads of `transfer`. `Transfer` runs the two copies one after the other.
  - Tearing both directions down at the first empty read is not what the code does: it joins both threads, so each direction runs to its own empty read, and the model does the same.
- SocketUtil.Socket.Send: `send` is taken to deliver its whole chunk. Its return value is ignored by the source, and partial sends are not modelled.
- SocketUtil.Socket.Recv: a peer is a finite list of non-empty pieces followed by a close. A peer that never closes, and read errors, are not modelled.
- IpvsRouter.Connect: models `connect` only up to its first `yield`. Three things are left out:
  - what happens after the first `yield` when the loop resumes. If the caller's block raises, the name `context_error` is unbound after its `except` clause in Python 3. If the block returns normally, a later successful ssh_direct attempt makes `@contextmanager` raise RuntimeError at the second `yield`, and running out of methods raises No_Methods_Available out of the `with` statement;
  - the `port` and `client_identity` arguments, which are handed to the SSH connection unchanged;
  - response shapes the typed messages cannot hold, each of which raises TypeError in the source: JSON that decodes to something other than an object; a 'methods' value that is not a list (a number or null raises at ipvs_router.py:74, a string or an object is iterated and its items raise at :75); a method entry that is not an object (:75); an 'args' value that is not an object (:78). A 'type' that is not a string is not held either; the source compares it unequal to ssh_direct and skips the method, as the model does for any other type.
- IpvsRouter.HandshakeHandler: the request's socket is taken to be `req.request`. The handler reads, sends and closes through `req.sock`, which the `Request` class of socket_util.py:7-15 does not define; as written, every request would raise AttributeError before anything is read. The raises are shown as results; the socket handling after a raise is not modelled.
- SshUtil.GetPubkeyFromIpvsAddress: returns the key type and bytes; `PKey.from_type_string` and key-type support are not modelled.
- Text.HexDecode: strict pairs of hex digits; the whitespace `bytes.fromhex` tolerates between pairs is not modelled.
- Text.Strip and Text.Lower: ASCII whitespace and ASCII letters only, not Unicode.
- SshServerUtil.Dispatch: the info sender is taken to succeed. Only a registered handler may raise.

## Findings

| source | as written | input that shows it | evidently intended | confidence | as-written member | corrected member |
|---|---|---|---|---|---|---|
| ipvs_concept/ssh_server_util.py:61-77 | one handler, built once per server, records the accepted opens of every connection in one table keyed by channel id, and each connection looks its accepted channel up there | server with handlers {111: echo}; connection A opens its channel 0 to 127.0.0.1:111, connection B opens its own channel 0 to 127.0.0.1:230, then A's channel is dispatched and A is sent the info document instead of reaching echo | each connection's dispatch is decided by its own opens, as in ssh_util.py, which builds a handler per connection | medium, not executed: paramiko numbers each transport's channels from 0, and the connections' workers run concurrently | SshServerUtil.SharedTableCrossesConnections | SshServerUtil.HandleConnection |

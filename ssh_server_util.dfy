/** The tunnel server of ssh_server_util.py: one authorisation handler shared by every connection of
    a server, a table from channel id to the destination port of each accepted channel open, and the
    dispatch of a connection's accepted channel to the info sender (port 230) or to the handler
    registered for its port. */
module SshServerUtil {
  import opened Wrappers
  import opened Text
  import opened SshTypes

  /** IPVS_INFO_PORT: the port at which the server describes itself. */
  const IpvsInfoPort: int := 230

  /** A destination the server answers: the loopback host and a registered port or the info port. */
  predicate Accepts(channelHandlers: map<int, HandlerId>, destination: Endpoint) {
    destination.host == Loopback && (destination.port in channelHandlers || destination.port == IpvsInfoPort)
  }

  /** Every recorded port is one the server answers, so dispatch always finds a handler for it. */
  predicate TableValid(channelHandlers: map<int, HandlerId>, pending: map<int, int>) {
    forall chanid :: chanid in pending ==> pending[chanid] in channelHandlers || pending[chanid] == IpvsInfoPort
  }

  /** _IPVS_SSH_Server_Handler: the handler tables and the pending channel opens. */
  class ServerHandler {
    const channelHandlers: map<int, HandlerId>
    /** The channel id of every accepted direct-tcpip open, with its destination port. */
    var pending: map<int, int>

    ghost predicate Valid()
      reads this
    {
      TableValid(channelHandlers, pending)
    }

    constructor (channelHandlers: map<int, HandlerId>)
      ensures Valid() && this.channelHandlers == channelHandlers && pending == map[]
    {
      this.channelHandlers := channelHandlers;
      pending := map[];
    }

    /** check_auth_publickey: only the user "ipvs" is let in; the key is not kept. */
    function CheckAuthPublickey(username: string, key: PublicKey): (r: AuthResult)
      ensures r == AuthSuccessful <==> username == IpvsUsername
    {
      if username == IpvsUsername then AuthSuccessful else AuthFailed
    }

    /** get_allowed_auths: public-key authentication and nothing else, for every user name. */
    function GetAllowedAuths(username: string): (r: string)
      ensures r == PublickeyAuth
    {
      PublickeyAuth
    }

    /** check_channel_direct_tcpip_request: the loopback host and a registered port or the info port
        are answered, and the open is recorded under its channel id; the origin plays no part. */
    method CheckChannelDirectTcpipRequest(chanid: int, origin: Endpoint, destination: Endpoint)
      returns (r: OpenResult)
      requires Valid()
      modifies this`pending
      ensures Valid()
      ensures r == OpenSucceeded <==> Accepts(channelHandlers, destination)
      ensures r != OpenSucceeded ==> r == OpenFailedAdministrativelyProhibited && r.Code() == 1
      ensures pending == if r == OpenSucceeded then old(pending)[chanid := destination.port] else old(pending)
    {
      var isValidPort := destination.port in channelHandlers || destination.port == IpvsInfoPort;
      if destination.host == Loopback && isValidPort {
        pending := pending[chanid := destination.port];
        return OpenSucceeded;
      }
      return OpenFailedAdministrativelyProhibited;
    }
  }

  /** The answer the handler gives to one callback, whatever came before it. */
  function Answer(channelHandlers: map<int, HandlerId>, m: ClientMessage): Reply {
    match m
    case AuthPublickey(username, _) =>
      AuthReply(if username == IpvsUsername then AuthSuccessful else AuthFailed)
    case OpenDirectTcpip(_, _, destination) =>
      OpenReply(if Accepts(channelHandlers, destination) then OpenSucceeded else OpenFailedAdministrativelyProhibited)
  }

  /** The pending table after the handler has answered the callbacks of a script, in order. */
  function PendingAfter(channelHandlers: map<int, HandlerId>, pending: map<int, int>,
                        script: seq<ClientMessage>): (r: map<int, int>)
    ensures TableValid(channelHandlers, pending) ==> TableValid(channelHandlers, r)
  {
    if script == [] then pending
    else
      var before := PendingAfter(channelHandlers, pending, script[..|script| - 1]);
      var m := script[|script| - 1];
      if m.OpenDirectTcpip? && Accepts(channelHandlers, m.destination) then before[m.chanid := m.destination.port]
      else before
  }

  /** An open of this channel id that the handler accepted, for this port. */
  predicate AcceptedOpen(channelHandlers: map<int, HandlerId>, m: ClientMessage, chanid: int, port: int) {
    m.OpenDirectTcpip? && Accepts(channelHandlers, m.destination)
    && m.chanid == chanid && m.destination.port == port
  }

  /** Entries are added and never removed. */
  lemma {:induction false} PendingGrows(channelHandlers: map<int, HandlerId>, pending: map<int, int>,
                                        script: seq<ClientMessage>)
    ensures pending.Keys <= PendingAfter(channelHandlers, pending, script).Keys
  {
    if script != [] {
      PendingGrows(channelHandlers, pending, script[..|script| - 1]);
    }
  }

  /** An entry of the table was there before the script or comes from an accepted open in it. */
  lemma {:induction false} PendingFromOpen(channelHandlers: map<int, HandlerId>, pending: map<int, int>,
                                           script: seq<ClientMessage>, chanid: int)
    requires chanid in PendingAfter(channelHandlers, pending, script)
    ensures var port := PendingAfter(channelHandlers, pending, script)[chanid];
            (chanid in pending && pending[chanid] == port)
            || exists k :: 0 <= k < |script| && AcceptedOpen(channelHandlers, script[k], chanid, port)
  {
    if script != [] {
      var n := |script| - 1;
      var port := PendingAfter(channelHandlers, pending, script)[chanid];
      if AcceptedOpen(channelHandlers, script[n], chanid, port) {
      } else {
        var before := PendingAfter(channelHandlers, pending, script[..n]);
        assert chanid in before && before[chanid] == port;
        PendingFromOpen(channelHandlers, pending, script[..n], chanid);
        if !(chanid in pending && pending[chanid] == port) {
          var k :| 0 <= k < n && AcceptedOpen(channelHandlers, script[..n][k], chanid, port);
          assert script[k] == script[..n][k];
        }
      }
    }
  }

  /** What handle_request does once the callbacks are over, in order. */
  datatype Effect =
    | RunHandler(handler: HandlerId, chan: Channel)
    | SendInfo(chanid: int, data: seq<byte>)
    | CloseChannel(chanid: int)
    | Raise(error: RequestError)

  /** KeyError: the accepted channel's id is not in the table (the lookup is before the try, so the
      channel stays open); HandlerFailed: the registered handler raised and the error leaves the worker. */
  datatype RequestError = KeyError | HandlerFailed

  /** The dispatch of handle_request against a table: nothing without an active channel; the info
      document (handle_json_info) for port 230, ahead of any handler registered there; otherwise the
      registered handler; and the channel closed after either returns or raises. */
  function Dispatch(channelHandlers: map<int, HandlerId>, infoJson: seq<byte>, pending: map<int, int>,
                    accepted: Option<Channel>, handlerRaises: bool): (effects: seq<Effect>)
    requires TableValid(channelHandlers, pending)
    ensures effects == [] <==> accepted.None? || !accepted.value.active
    ensures effects != [] && accepted.value.chanid !in pending ==> effects == [Raise(KeyError)]
    ensures effects != [] && accepted.value.chanid in pending ==>
              |effects| >= 2 && effects[1] == CloseChannel(accepted.value.chanid)
              && (effects[0].SendInfo? <==> pending[accepted.value.chanid] == IpvsInfoPort)
              && (effects[0].RunHandler? <==> pending[accepted.value.chanid] != IpvsInfoPort)
              && effects[2..] == (if handlerRaises && pending[accepted.value.chanid] != IpvsInfoPort
                                  then [Raise(HandlerFailed)] else [])
    ensures forall k :: 0 <= k < |effects| && effects[k].SendInfo? ==>
              k == 0 && effects[k] == SendInfo(accepted.value.chanid, infoJson)
    ensures forall k :: 0 <= k < |effects| && effects[k].RunHandler? ==>
              k == 0 && pending[accepted.value.chanid] in channelHandlers
              && effects[k] == RunHandler(channelHandlers[pending[accepted.value.chanid]], accepted.value)
  {
    if accepted.None? || !accepted.value.active then []
    else
      var chan := accepted.value;
      if chan.chanid !in pending then [Raise(KeyError)]
      else
        var destPort := pending[chan.chanid];
        if destPort == IpvsInfoPort then [SendInfo(chan.chanid, infoJson), CloseChannel(chan.chanid)]
        else
          [RunHandler(channelHandlers[destPort], chan), CloseChannel(chan.chanid)]
          + (if handlerRaises then [Raise(HandlerFailed)] else [])
  }

  /** create_ipvs_ssh_server: one handler, built once, that every connection's callbacks reach. */
  class Server {
    const handler: ServerHandler
    /** json.dumps(ipvs_info).encode(): the info document as it is sent. */
    const infoJson: seq<byte>

    ghost predicate Valid()
      reads this, handler
    {
      handler.Valid()
    }

    constructor (channelHandlers: map<int, HandlerId>, infoJson: seq<byte>)
      ensures Valid() && fresh(handler)
      ensures handler.channelHandlers == channelHandlers && handler.pending == map[] && this.infoJson == infoJson
    {
      handler := new ServerHandler(channelHandlers);
      this.infoJson := infoJson;
    }

    /** handle_request for one inbound connection: the shared handler answers the connection's
        callbacks, then the channel transport.accept() returned is dispatched by its id. */
    method HandleRequest(script: seq<ClientMessage>, accepted: Option<Channel>, handlerRaises: bool)
      returns (replies: seq<Reply>, effects: seq<Effect>)
      requires Valid()
      modifies handler`pending
      ensures Valid()
      ensures |replies| == |script|
      ensures forall k :: 0 <= k < |script| ==> replies[k] == Answer(handler.channelHandlers, script[k])
      ensures handler.pending == PendingAfter(handler.channelHandlers, old(handler.pending), script)
      ensures effects == Dispatch(handler.channelHandlers, infoJson, handler.pending, accepted, handlerRaises)
    {
      replies := Callbacks(handler, script);
      effects := DispatchChannel(handler, infoJson, accepted, handlerRaises);
    }
  }

  /** The handler answers the callbacks of one connection, in order. */
  method Callbacks(handler: ServerHandler, script: seq<ClientMessage>) returns (replies: seq<Reply>)
    requires handler.Valid()
    modifies handler`pending
    ensures handler.Valid()
    ensures |replies| == |script|
    ensures forall k :: 0 <= k < |script| ==> replies[k] == Answer(handler.channelHandlers, script[k])
    ensures handler.pending == PendingAfter(handler.channelHandlers, old(handler.pending), script)
  {
    replies := [];
    var i := 0;
    while i < |script|
      invariant 0 <= i <= |script|
      invariant handler.Valid()
      invariant handler.pending == PendingAfter(handler.channelHandlers, old(handler.pending), script[..i])
      invariant |replies| == i
      invariant forall k :: 0 <= k < i ==> replies[k] == Answer(handler.channelHandlers, script[k])
    {
      assert script[..i + 1][..i] == script[..i];
      match script[i] {
        case AuthPublickey(username, key) =>
          var r := handler.CheckAuthPublickey(username, key);
          replies := replies + [AuthReply(r)];
        case OpenDirectTcpip(chanid, origin, destination) =>
          var r := handler.CheckChannelDirectTcpipRequest(chanid, origin, destination);
          replies := replies + [OpenReply(r)];
      }
      i := i + 1;
    }
    assert script[..i] == script;
  }

  /** The dispatch step of handle_request, with handle_json_info for the info port. */
  method DispatchChannel(handler: ServerHandler, infoJson: seq<byte>, accepted: Option<Channel>,
                         handlerRaises: bool)
    returns (effects: seq<Effect>)
    requires handler.Valid()
    ensures effects == Dispatch(handler.channelHandlers, infoJson, handler.pending, accepted, handlerRaises)
  {
    if accepted.None? || !accepted.value.active {
      return [];
    }
    var chan := accepted.value;
    if chan.chanid !in handler.pending {
      return [Raise(KeyError)];
    }
    var destPort := handler.pending[chan.chanid];
    if destPort == IpvsInfoPort {
      effects := HandleJsonInfo(chan, infoJson);
    } else {
      effects := [RunHandler(handler.channelHandlers[destPort], chan)];
    }
    effects := effects + [CloseChannel(chan.chanid)];
    if destPort != IpvsInfoPort && handlerRaises {
      effects := effects + [Raise(HandlerFailed)];
    }
  }

  /** handle_json_info: the serialised info document, sent once over the channel. */
  method HandleJsonInfo(chan: Channel, infoJson: seq<byte>) returns (effects: seq<Effect>)
    ensures effects == [SendInfo(chan.chanid, infoJson)]
  {
    effects := [SendInfo(chan.chanid, infoJson)];
  }

  /** handle_request with a handler of the connection's own, as ssh_util.py does: the table then
      holds this connection's opens only. */
  method HandleConnection(channelHandlers: map<int, HandlerId>, infoJson: seq<byte>, script: seq<ClientMessage>,
                          accepted: Option<Channel>, handlerRaises: bool)
    returns (replies: seq<Reply>, effects: seq<Effect>)
    ensures |replies| == |script|
    ensures forall k :: 0 <= k < |script| ==> replies[k] == Answer(channelHandlers, script[k])
    ensures TableValid(channelHandlers, PendingAfter(channelHandlers, map[], script))
    ensures effects == Dispatch(channelHandlers, infoJson, PendingAfter(channelHandlers, map[], script),
                                accepted, handlerRaises)
  {
    var handler := new ServerHandler(channelHandlers);
    replies := Callbacks(handler, script);
    effects := DispatchChannel(handler, infoJson, accepted, handlerRaises);
  }

  /** With a handler of its own, a connection's channel reaches the info sender or a registered
      handler only for a port that this same connection opened that channel to and was answered. */
  lemma OwnConnectionDispatch(channelHandlers: map<int, HandlerId>, infoJson: seq<byte>, script: seq<ClientMessage>,
                              chan: Channel, handlerRaises: bool)
    requires chan.active
    ensures var pending := PendingAfter(channelHandlers, map[], script);
            var effects := Dispatch(channelHandlers, infoJson, pending, Some(chan), handlerRaises);
            (effects[0].SendInfo? || effects[0].RunHandler?) ==>
              exists k :: 0 <= k < |script| && AcceptedOpen(channelHandlers, script[k], chan.chanid, pending[chan.chanid])
  {
    var pending := PendingAfter(channelHandlers, map[], script);
    if chan.chanid in pending {
      PendingFromOpen(channelHandlers, map[], script, chan.chanid);
    }
  }

  /** With the shared handler, connection A opens channel 0 to its echo port 111 and connection B
      opens its own channel 0 to the info port before A's channel is dispatched: A's channel is then
      handed the info document, a port A never asked for. */
  lemma SharedTableCrossesConnections(infoJson: seq<byte>, origin: Endpoint)
    ensures var channelHandlers := map[111 := "echo"];
            var a := [OpenDirectTcpip(0, origin, Endpoint(Loopback, 111))];
            var b := [OpenDirectTcpip(0, origin, Endpoint(Loopback, IpvsInfoPort))];
            var shared := PendingAfter(channelHandlers, PendingAfter(channelHandlers, map[], a), b);
            && Dispatch(channelHandlers, infoJson, shared, Some(Channel(0, true)), false)
               == [SendInfo(0, infoJson), CloseChannel(0)]
            && !(exists k :: 0 <= k < |a| && AcceptedOpen(channelHandlers, a[k], 0, IpvsInfoPort))
            && Dispatch(channelHandlers, infoJson, PendingAfter(channelHandlers, map[], a), Some(Channel(0, true)), false)
               == [RunHandler("echo", Channel(0, true)), CloseChannel(0)]
  {
    var channelHandlers := map[111 := "echo"];
    var a := [OpenDirectTcpip(0, origin, Endpoint(Loopback, 111))];
    var b := [OpenDirectTcpip(0, origin, Endpoint(Loopback, IpvsInfoPort))];
    assert a[..0] == [] && b[..0] == [];
    assert PendingAfter(channelHandlers, map[], a) == map[0 := 111];
    assert PendingAfter(channelHandlers, map[0 := 111], b) == map[0 := IpvsInfoPort];
  }
}

/** The tunnel server of ssh_util.py: an authorisation handler created fresh for every inbound
    connection, the dispatch of that connection's one accepted channel to the handler registered for
    its destination port, and the decoder from an IPVS address to a public key. */
module SshUtil {
  import opened Wrappers
  import opened Text
  import opened SshTypes

  /** IPVS_Request: what a registered handler receives. */
  datatype IpvsRequest = IpvsRequest(chan: Channel, identity: Option<PublicKey>)

  /** A destination the server forwards to: the loopback host and a registered port. */
  predicate Serves(handlers: map<int, HandlerId>, destination: Endpoint) {
    destination.host == Loopback && destination.port in handlers
  }

  /** _IPVS_SSH_Server_Handler: the authorisation state of one connection. */
  class ServerHandler {
    const handlers: map<int, HandlerId>
    var clientIdentity: Option<PublicKey>
    var destPort: Option<int>

    ghost predicate Valid()
      reads this
    {
      destPort.Some? ==> destPort.value in handlers
    }

    constructor (handlers: map<int, HandlerId>)
      ensures Valid() && this.handlers == handlers
      ensures clientIdentity == None && destPort == None
    {
      this.handlers := handlers;
      clientIdentity := None;
      destPort := None;
    }

    /** check_auth_publickey: only the user "ipvs" is let in, and the key it presented is remembered. */
    method CheckAuthPublickey(username: string, key: PublicKey) returns (r: AuthResult)
      requires Valid()
      modifies this`clientIdentity
      ensures Valid()
      ensures r == AuthSuccessful <==> username == IpvsUsername
      ensures clientIdentity == if username == IpvsUsername then Some(key) else old(clientIdentity)
    {
      if username == IpvsUsername {
        clientIdentity := Some(key);
        return AuthSuccessful;
      }
      return AuthFailed;
    }

    /** get_allowed_auths: public-key authentication and nothing else, for every user name. */
    function GetAllowedAuths(username: string): (r: string)
      ensures r == PublickeyAuth
    {
      PublickeyAuth
    }

    /** check_channel_direct_tcpip_request: only the loopback host and a registered port are served;
        the origin plays no part. */
    method CheckChannelDirectTcpipRequest(chanid: int, origin: Endpoint, destination: Endpoint)
      returns (r: OpenResult)
      requires Valid()
      modifies this`destPort
      ensures Valid()
      ensures r == OpenSucceeded <==> Serves(handlers, destination)
      ensures r != OpenSucceeded ==> r == OpenFailedAdministrativelyProhibited && r.Code() == 1
      ensures destPort == if r == OpenSucceeded then Some(destination.port) else old(destPort)
    {
      var isValidPort := destination.port in handlers;
      if destination.host == Loopback && isValidPort {
        destPort := Some(destination.port);
        return OpenSucceeded;
      }
      return OpenFailedAdministrativelyProhibited;
    }
  }

  /** The answer a handler gives to one callback, whatever came before it. */
  function Answer(handlers: map<int, HandlerId>, m: ClientMessage): Reply {
    match m
    case AuthPublickey(username, _) =>
      AuthReply(if username == IpvsUsername then AuthSuccessful else AuthFailed)
    case OpenDirectTcpip(_, _, destination) =>
      OpenReply(if Serves(handlers, destination) then OpenSucceeded else OpenFailedAdministrativelyProhibited)
  }

  /** The identity a connection ends up with: the key of its last accepted authentication. */
  function IdentityAfter(script: seq<ClientMessage>): Option<PublicKey> {
    if script == [] then None
    else
      var m := script[|script| - 1];
      if m.AuthPublickey? && m.username == IpvsUsername then Some(m.key)
      else IdentityAfter(script[..|script| - 1])
  }

  /** The destination port a connection ends up with: that of its last accepted channel open. */
  function PortAfter(handlers: map<int, HandlerId>, script: seq<ClientMessage>): Option<int> {
    if script == [] then None
    else
      var m := script[|script| - 1];
      if m.OpenDirectTcpip? && Serves(handlers, m.destination) then Some(m.destination.port)
      else PortAfter(handlers, script[..|script| - 1])
  }

  /** What handle_request does once the callbacks are over, in order. */
  datatype Effect =
    | RunHandler(handler: HandlerId, request: IpvsRequest)
    | CloseChannel(chanid: int)
    | Raise(error: RequestError)

  /** KeyError: the handler table was indexed with no recorded port (before the try, so the channel
      stays open); HandlerFailed: the registered handler raised and the error leaves the worker. */
  datatype RequestError = KeyError | HandlerFailed

  /** handle_request for one inbound connection: a fresh handler answers this connection's callbacks,
      then the channel transport.accept() returned, if any and still active, goes to the handler
      registered for the recorded port and is closed whether that handler returns or raises. */
  method HandleRequest(handlers: map<int, HandlerId>, script: seq<ClientMessage>,
                       accepted: Option<Channel>, handlerRaises: bool)
    returns (replies: seq<Reply>, effects: seq<Effect>)
    ensures |replies| == |script|
    ensures forall k :: 0 <= k < |script| ==> replies[k] == Answer(handlers, script[k])
    ensures accepted.None? || !accepted.value.active ==> effects == []
    ensures accepted.Some? && accepted.value.active && PortAfter(handlers, script).None? ==>
              effects == [Raise(KeyError)]
    ensures accepted.Some? && accepted.value.active && PortAfter(handlers, script).Some? ==>
              var port := PortAfter(handlers, script).value;
              port in handlers &&
              effects == [RunHandler(handlers[port], IpvsRequest(accepted.value, IdentityAfter(script))),
                          CloseChannel(accepted.value.chanid)]
                         + (if handlerRaises then [Raise(HandlerFailed)] else [])
  {
    var handler := new ServerHandler(handlers);
    replies := [];
    var i := 0;
    while i < |script|
      invariant 0 <= i <= |script|
      invariant handler.Valid() && handler.handlers == handlers
      invariant handler.clientIdentity == IdentityAfter(script[..i])
      invariant handler.destPort == PortAfter(handlers, script[..i])
      invariant |replies| == i
      invariant forall k :: 0 <= k < i ==> replies[k] == Answer(handlers, script[k])
    {
      assert script[..i + 1][..i] == script[..i];
      match script[i] {
        case AuthPublickey(username, key) =>
          var r := handler.CheckAuthPublickey(username, key);
          replies := replies + [AuthReply(r)];
        case OpenDirectTcpip(chanid, origin, destination) =>
          var r := handler.CheckChannelDirectTcpipRequest(chanid, origin, destination);
          replies := replies + [OpenReply(r)];
      }
      i := i + 1;
    }
    assert script[..i] == script;

    if accepted.None? || !accepted.value.active {
      effects := [];
      return;
    }
    var chan := accepted.value;
    var clientIdentity := handler.clientIdentity;
    var destPort := handler.destPort;
    if destPort.None? {
      effects := [Raise(KeyError)];
      return;
    }
    var handleChannel := handlers[destPort.value];
    var req := IpvsRequest(chan, clientIdentity);
    effects := [RunHandler(handleChannel, req)];
    effects := effects + [CloseChannel(chan.chanid)];
    if handlerRaises {
      effects := effects + [Raise(HandlerFailed)];
    }
  }

  /** The identity a handler sees was presented, as user "ipvs", on this same connection. */
  lemma {:induction false} IdentityFromOwnConnection(script: seq<ClientMessage>, key: PublicKey)
    requires IdentityAfter(script) == Some(key)
    ensures exists k :: 0 <= k < |script| && script[k] == AuthPublickey(IpvsUsername, key)
  {
    var n := |script| - 1;
    var m := script[n];
    if !(m.AuthPublickey? && m.username == IpvsUsername) {
      IdentityFromOwnConnection(script[..n], key);
      var k :| 0 <= k < n && script[..n][k] == AuthPublickey(IpvsUsername, key);
      assert script[k] == AuthPublickey(IpvsUsername, key);
    } else {
      assert script[n] == AuthPublickey(IpvsUsername, key);
    }
  }

  /** A handler runs only for a port that this connection asked for and the server serves. */
  lemma {:induction false} PortFromOwnConnection(handlers: map<int, HandlerId>, script: seq<ClientMessage>, port: int)
    requires PortAfter(handlers, script) == Some(port)
    ensures exists k :: 0 <= k < |script| && script[k].OpenDirectTcpip?
              && Serves(handlers, script[k].destination) && script[k].destination.port == port
  {
    var n := |script| - 1;
    var m := script[n];
    if !(m.OpenDirectTcpip? && Serves(handlers, m.destination)) {
      PortFromOwnConnection(handlers, script[..n], port);
      var k :| 0 <= k < n && script[..n][k].OpenDirectTcpip?
               && Serves(handlers, script[..n][k].destination) && script[..n][k].destination.port == port;
      assert script[k] == script[..n][k];
    }
  }

  /** A connection whose channel opens were all refused never reaches a registered handler. */
  lemma {:induction false} RefusedOpensRunNothing(handlers: map<int, HandlerId>, script: seq<ClientMessage>)
    requires forall k :: 0 <= k < |script| && script[k].OpenDirectTcpip? ==> !Serves(handlers, script[k].destination)
    ensures PortAfter(handlers, script) == None
  {
    if script != [] {
      var n := |script| - 1;
      assert forall k :: 0 <= k < n ==> script[..n][k] == script[k];
      RefusedOpensRunNothing(handlers, script[..n]);
    }
  }

  // ---- get_pubkey_from_ipvs_address ----

  /** Why an address is refused: the last label is not "ipvs" (ValueError), there is no
      third-from-last label (IndexError), or that label is not hexadecimal (ValueError of fromhex). */
  datatype AddressError = NotAnIpvsAddress | IndexError | NonHexadecimal

  /** The dot-separated labels of an address once stripped and lower-cased. */
  function Labels(addr: string): seq<string> {
    Split(Lower(Strip(addr)), '.')
  }

  /** get_pubkey_from_ipvs_address: the key blob is the hex third-from-last label, the key type is
      "ssh-" followed by the second-from-last label; the labels before them are not looked at. */
  function GetPubkeyFromIpvsAddress(addr: string): (r: Result<PublicKey, AddressError>)
    ensures r.Success? ==> |r.value.keyType| >= 4 && r.value.keyType[..4] == "ssh-"
    ensures r.Success? ==> '.' !in r.value.keyType[4..]
  {
    var r := KeyOfLabels(Labels(addr));
    assert r.Success? ==> r.value.keyType[4..] == Labels(addr)[|Labels(addr)| - 2];
    r
  }

  /** The decision on the labels: last one "ipvs", then a third-from-last one, then hexadecimal. */
  function KeyOfLabels(parts: seq<string>): (r: Result<PublicKey, AddressError>)
    requires |parts| >= 1
    ensures r.Success? <==> parts[|parts| - 1] == "ipvs" && |parts| >= 3 && HexDecode(parts[|parts| - 3]).Some?
    ensures r.Success? ==> r.value.keyType == "ssh-" + parts[|parts| - 2]
                           && HexDecode(parts[|parts| - 3]) == Some(r.value.blob)
    ensures r.Failure? ==> r.error == (if parts[|parts| - 1] != "ipvs" then NotAnIpvsAddress
                                      else if |parts| < 3 then IndexError else NonHexadecimal)
  {
    if parts[|parts| - 1] != "ipvs" then Failure(NotAnIpvsAddress)
    else if |parts| < 3 then Failure(IndexError)
    else
      var pubkeyHex := parts[|parts| - 3];
      var pubkeyType := "ssh-" + parts[|parts| - 2];
      match HexDecode(pubkeyHex)
      case None => Failure(NonHexadecimal)
      case Some(blob) => Success(PublicKey(pubkeyType, blob))
  }

  /** The address format `<pubkey hex>.<pubkey type>.ipvs`, for a key type named by its tag
      without the "ssh-" prefix (for instance "ed25519"). */
  function IpvsAddress(tag: string, blob: seq<byte>): string {
    HexEncode(blob) + "." + tag + ".ipvs"
  }

  lemma HexHasNoDot(blob: seq<byte>)
    ensures '.' !in HexEncode(blob)
  {
    var hex := HexEncode(blob);
    forall k | 0 <= k < |hex|
      ensures hex[k] != '.'
    {
      assert IsLowerHexDigit(hex[k]);
    }
  }

  lemma AddressIsLowerCase(tag: string, blob: seq<byte>)
    requires IsLowerCase(tag)
    ensures IsLowerCase(IpvsAddress(tag, blob))
  {
    var hex := HexEncode(blob);
    LowerHex(blob);
    LowerFixed(".");
    LowerFixed(".ipvs");
    LowerAppend(hex, ".");
    LowerAppend(hex + ".", tag);
    LowerAppend(hex + "." + tag, ".ipvs");
  }

  lemma AddressSplit(tag: string, blob: seq<byte>)
    requires '.' !in tag
    ensures Split(IpvsAddress(tag, blob), '.') == [HexEncode(blob), tag, "ipvs"]
  {
    var hex := HexEncode(blob);
    var rest := tag + (['.'] + "ipvs");
    assert IpvsAddress(tag, blob) == hex + (['.'] + rest);
    HexHasNoDot(blob);
    SplitNoSeparator(hex, '.');
    SplitNoSeparator(tag, '.');
    SplitNoSeparator("ipvs", '.');
    SplitAround(tag, '.', "ipvs");
    assert Split(rest, '.') == [tag, "ipvs"];
    SplitAround(hex, '.', rest);
  }

  lemma AddressLabels(tag: string, blob: seq<byte>)
    requires '.' !in tag && IsLowerCase(tag)
    ensures Lower(IpvsAddress(tag, blob)) == IpvsAddress(tag, blob)
    ensures Split(IpvsAddress(tag, blob), '.') == [HexEncode(blob), tag, "ipvs"]
  {
    AddressIsLowerCase(tag, blob);
    AddressSplit(tag, blob);
  }

  lemma AddressEnds(tag: string, blob: seq<byte>)
    ensures IpvsAddress(tag, blob) != []
    ensures !IsSpace(IpvsAddress(tag, blob)[0])
    ensures IpvsAddress(tag, blob)[|IpvsAddress(tag, blob)| - 1] == 's'
  {
    var a := IpvsAddress(tag, blob);
    var hex := HexEncode(blob);
    if blob != [] {
      assert a[0] == hex[0] && IsLowerHexDigit(hex[0]);
    } else {
      assert a[0] == '.';
    }
  }

  /** An address neither begins nor ends with whitespace, so stripping leaves it alone, and in front
      of it only the prefix's leading whitespace goes. */
  lemma AddressStripped(tag: string, blob: seq<byte>, prefix: string)
    ensures Strip(IpvsAddress(tag, blob)) == IpvsAddress(tag, blob)
    ensures Strip(prefix + ("." + IpvsAddress(tag, blob))) == TrimStart(prefix) + ("." + IpvsAddress(tag, blob))
  {
    var a := IpvsAddress(tag, blob);
    AddressEnds(tag, blob);
    StripUnpadded(a);
    PrefixStripped(prefix, a);
  }

  lemma PrefixStripped(prefix: string, a: string)
    requires a != [] && !IsSpace(a[|a| - 1])
    ensures Strip(prefix + ("." + a)) == TrimStart(prefix) + ("." + a)
  {
    var dotted := "." + a;
    TrimStartAppend(prefix, dotted);
    var t := TrimStart(prefix) + dotted;
    assert t[|t| - 1] == a[|a| - 1];
    TrimEndUnpadded(t);
  }

  /** The decoder reads only the last three labels. */
  lemma DecodeLastLabels(addr: string, front: seq<string>, hex: string, tag: string, blob: seq<byte>)
    requires Labels(addr) == front + [hex, tag, "ipvs"]
    requires HexDecode(hex) == Some(blob)
    ensures GetPubkeyFromIpvsAddress(addr) == Success(PublicKey("ssh-" + tag, blob))
  {
  }

  lemma AddressLabelList(tag: string, blob: seq<byte>)
    requires '.' !in tag && IsLowerCase(tag)
    ensures Labels(IpvsAddress(tag, blob)) == [HexEncode(blob), tag, "ipvs"]
  {
    AddressStripped(tag, blob, "");
    AddressLabels(tag, blob);
  }

  lemma PrefixedLabelList(prefix: string, tag: string, blob: seq<byte>)
    requires '.' !in tag && IsLowerCase(tag)
    ensures Labels(prefix + ("." + IpvsAddress(tag, blob)))
            == Split(Lower(TrimStart(prefix)), '.') + [HexEncode(blob), tag, "ipvs"]
  {
    var a := IpvsAddress(tag, blob);
    var p := TrimStart(prefix);
    AddressStripped(tag, blob, prefix);
    AddressLabels(tag, blob);
    LowerAppend(".", a);
    LowerAppend(p, "." + a);
    assert Lower(Strip(prefix + ("." + a))) == Lower(p) + (['.'] + a);
    SplitAround(Lower(p), '.', a);
  }

  /** Decoding the address of a key gives back the key. */
  lemma DecodeRoundTrip(tag: string, blob: seq<byte>)
    requires '.' !in tag && IsLowerCase(tag)
    ensures GetPubkeyFromIpvsAddress(IpvsAddress(tag, blob)) == Success(PublicKey("ssh-" + tag, blob))
  {
    AddressLabelList(tag, blob);
    HexRoundTrip(blob);
    DecodeLastLabels(IpvsAddress(tag, blob), [], HexEncode(blob), tag, blob);
  }

  /** Labels in front of the three that matter are ignored, whatever they hold. */
  lemma DecodeIgnoresLeadingLabels(prefix: string, tag: string, blob: seq<byte>)
    requires '.' !in tag && IsLowerCase(tag)
    ensures GetPubkeyFromIpvsAddress(prefix + ("." + IpvsAddress(tag, blob)))
            == Success(PublicKey("ssh-" + tag, blob))
  {
    PrefixedLabelList(prefix, tag, blob);
    HexRoundTrip(blob);
    DecodeLastLabels(prefix + ("." + IpvsAddress(tag, blob)), Split(Lower(TrimStart(prefix)), '.'),
                     HexEncode(blob), tag, blob);
  }

  /** Decoding does not depend on letter case. */
  lemma DecodeCaseInsensitive(addr: string)
    ensures GetPubkeyFromIpvsAddress(addr) == GetPubkeyFromIpvsAddress(Lower(addr))
  {
    StripLower(addr);
    LowerIdempotent(Strip(addr));
  }

  /** The last label is "ipvs" exactly when the text is "ipvs" or ends in ".ipvs". */
  predicate EndsWithIpvsLabel(s: string) {
    s == "ipvs" || (|s| >= 5 && s[|s| - 5..] == ".ipvs")
  }

  lemma DotlessLabel(s: string)
    requires '.' !in s
    ensures s == "ipvs" <==> EndsWithIpvsLabel(s)
  {
    if |s| >= 5 {
      assert s[|s| - 5..][0] == s[|s| - 5];
    }
  }

  lemma LabelAfterDot(j: string, last: string)
    requires '.' !in last
    ensures last == "ipvs" <==> EndsWithIpvsLabel(j + ['.'] + last)
  {
    var s := j + ['.'] + last;
    assert s[|j|] == '.';
    assert '.' !in "ipvs";
    assert s[|s| - |last|..] == last;
    assert forall k :: |j| < k < |s| ==> s[k] == last[k - |j| - 1];
    if |s| >= 5 && s[|s| - 5..] == ".ipvs" {
      assert s[|s| - 5] == '.';
      assert forall k :: |s| - 4 <= k < |s| ==> s[k] == "ipvs"[k - |s| + 4];
      assert |j| == |s| - 5;
      assert last == s[|s| - 4..];
    }
  }

  lemma LastLabel(s: string)
    ensures Split(s, '.')[|Split(s, '.')| - 1] == "ipvs" <==> EndsWithIpvsLabel(s)
  {
    var parts := Split(s, '.');
    var n := |parts|;
    var last := parts[n - 1];
    assert '.' !in last;
    if n == 1 {
      DotlessLabel(s);
    } else {
      var init := parts[..n - 1];
      assert parts == init + [last];
      JoinSnoc(init, last, '.');
      LabelAfterDot(Join(init, '.'), last);
    }
  }

  /** Refusal of non-IPVS addresses: ValueError exactly when the stripped, lower-cased text
      neither is "ipvs" nor ends in ".ipvs". */
  lemma DecodeRejectsNonIpvs(addr: string)
    ensures GetPubkeyFromIpvsAddress(addr) == Failure(NotAnIpvsAddress)
            <==> !EndsWithIpvsLabel(Lower(Strip(addr)))
  {
    LastLabel(Lower(Strip(addr)));
  }

  function CountChar(s: string, c: char): nat {
    if s == [] then 0 else (if s[0] == c then 1 else 0) + CountChar(s[1..], c)
  }

  lemma {:induction false} SplitCount(s: string, sep: char)
    ensures |Split(s, sep)| == CountChar(s, sep) + 1
  {
    if s != [] {
      SplitCount(s[1..], sep);
    }
  }

  /** An IPVS address with fewer than two dots has no key label: IndexError. */
  lemma DecodeNeedsTwoDots(addr: string)
    requires EndsWithIpvsLabel(Lower(Strip(addr)))
    ensures GetPubkeyFromIpvsAddress(addr) == Failure(IndexError)
            <==> CountChar(Lower(Strip(addr)), '.') < 2
  {
    LastLabel(Lower(Strip(addr)));
    SplitCount(Lower(Strip(addr)), '.');
  }
}

/** The IPVS router of ipvs_router.py: the client side (connect) rewrites an IPVS host to its onion
    host, asks the handshake responder there for the ways in, and tries the ssh_direct ones in order;
    the serving side (serve) answers the handshake and publishes the service's IPVS address. */
module IpvsRouter {
  import opened Wrappers
  import opened Text
  import opened SshTypes

  const IpvsProtocolVersion: int := 1
  const IpvsProtocolVersionKey: string := "ipvs_version"
  /** The onion port at which the handshake responder listens. */
  const IpvsOnionHandshakePort: int := 230
  const MethodSshDirect: string := "ssh_direct"

  // ---- messages ----

  /** A JSON scalar as the handshake messages carry it (floating-point numbers are not modelled). */
  datatype Scalar = Int(i: int) | Bool(b: bool) | Str(s: string) | Null

  /** Python's `v == 1` on a decoded JSON scalar: the integer 1 and also `true`, since bool is an int. */
  predicate EqualsOne(v: Scalar) {
    v == Int(1) || v == Bool(true)
  }

  /** The handshake request: a JSON object of scalars. */
  datatype HandshakeRequest = HandshakeRequest(fields: map<string, Scalar>)

  /** The arguments of an ssh_direct method: the public SSH endpoint and the server's key as text;
      None when the 'args' object, or one of its two keys, is missing. */
  datatype MethodArgs = MethodArgs(sshServerAddress: Endpoint, sshPublicKey: string)

  /** One way in offered by the responder: its 'type', None when the key is missing, and its 'args'. */
  datatype Method = Method(kind: Option<string>, args: Option<MethodArgs>)

  /** The handshake response as json.loads sees it: not JSON at all (an empty reply among others),
      or an object whose 'methods' list is None when the key is missing. */
  datatype HandshakeResponse = NotJson | JsonResponse(methods: Option<seq<Method>>)

  // ---- connect: host rewrite and handshake ----

  /** What connect raises: ValueError of str.index, the decode error of json.loads, KeyError of a
      missing response key, or No_Methods_Available with the list of failures, or with no arguments
      when there were none. */
  datatype ConnectError =
    | ValueError
    | JsonDecodeError
    | KeyError
    | NoMethodsAvailable(failures: Option<seq<string>>)

  /** The onion host of an IPVS host: the text before the first ".ipvs", then ".onion". */
  function OnionHost(ipvsHost: string): (r: Result<string, ConnectError>)
    ensures r.Failure? <==> forall p :: !OccursAt(ipvsHost, ".ipvs", p)
    ensures r.Failure? ==> r.error == ValueError
    ensures r.Success? ==> exists p :: OccursAt(ipvsHost, ".ipvs", p)
                                       && (forall q :: 0 <= q < p ==> !OccursAt(ipvsHost, ".ipvs", q))
                                       && r.value == ipvsHost[..p] + ".onion"
  {
    match IndexOf(ipvsHost, ".ipvs")
    case None => Failure(ValueError)
    case Some(ipvsIndex) => Success(ipvsHost[..ipvsIndex] + ".onion")
  }

  /** The request connect sends: {"ipvs_version": 1}. */
  function HandshakeReq(): (r: HandshakeRequest)
    ensures r.fields.Keys == {IpvsProtocolVersionKey}
    ensures r.fields[IpvsProtocolVersionKey] == Int(IpvsProtocolVersion)
  {
    HandshakeRequest(map[IpvsProtocolVersionKey := Int(IpvsProtocolVersion)])
  }

  /** Where the handshake goes: port 230 of the onion host. */
  function HandshakeAddress(onionHost: string): (r: Endpoint)
    ensures r.host == onionHost && r.port == 230
  {
    Endpoint(onionHost, IpvsOnionHandshakePort)
  }

  // ---- connect: the method loop ----

  /** How one attempt with connect_to_ipvs_ssh_server turns out: a channel, or the exception raised. */
  datatype Attempt = Succeeded(chan: Channel) | Failed(error: string)

  /** Where the loop ends: the channel of the first attempt that succeeded (handed to the caller by
      the first yield), no method left, or a method without its 'type', or an ssh_direct method
      without its arguments (KeyError, raised outside the try); each with the failures collected so far. */
  datatype LoopResult =
    | Yielded(index: nat, chan: Channel, failures: seq<string>)
    | Exhausted(failures: seq<string>)
    | MissingKey(index: nat, failures: seq<string>)

  predicate IsSshDirect(m: Method) {
    m.kind == Some(MethodSshDirect)
  }

  /** A method of another type, which the loop passes over. */
  predicate IsOther(m: Method) {
    m.kind.Some? && m.kind.value != MethodSshDirect
  }

  /** The loop goes past method k: it is of another type, or an ssh_direct attempt that failed. */
  predicate Passes(methods: seq<Method>, outcomes: seq<Attempt>, k: nat)
    requires |outcomes| == |methods| && k < |methods|
  {
    IsOther(methods[k]) || (IsSshDirect(methods[k]) && methods[k].args.Some? && outcomes[k].Failed?)
  }

  /** The loop from method i on, with the failures collected before it. */
  function RunFrom(methods: seq<Method>, outcomes: seq<Attempt>, i: nat, failures: seq<string>): LoopResult
    requires |outcomes| == |methods| && i <= |methods|
    decreases |methods| - i
  {
    if i == |methods| then Exhausted(failures)
    else if methods[i].kind.None? then MissingKey(i, failures)
    else if methods[i].kind.value != MethodSshDirect then RunFrom(methods, outcomes, i + 1, failures)
    else if methods[i].args.None? then MissingKey(i, failures)
    else
      match outcomes[i]
      case Succeeded(chan) => Yielded(i, chan, failures)
      case Failed(e) => RunFrom(methods, outcomes, i + 1, failures + [e])
  }

  /** The loop went past every method before n: each had its type, and each ssh_direct one had
      its arguments and failed. */
  predicate AllFailed(methods: seq<Method>, outcomes: seq<Attempt>, n: nat)
    requires |outcomes| == |methods| && n <= |methods|
  {
    forall j :: 0 <= j < n ==> Passes(methods, outcomes, j)
  }

  /** The errors of the failed ssh_direct attempts before n, in list order. */
  function FailuresOf(methods: seq<Method>, outcomes: seq<Attempt>, n: nat): seq<string>
    requires |outcomes| == |methods| && n <= |methods|
  {
    if n == 0 then []
    else
      FailuresOf(methods, outcomes, n - 1)
      + (if IsSshDirect(methods[n - 1]) && outcomes[n - 1].Failed? then [outcomes[n - 1].error] else [])
  }

  /** The arguments of the ssh_direct methods before n that have them: the servers attempted. */
  function ArgsOf(methods: seq<Method>, n: nat): seq<MethodArgs>
    requires n <= |methods|
  {
    if n == 0 then []
    else
      ArgsOf(methods, n - 1)
      + (if IsSshDirect(methods[n - 1]) && methods[n - 1].args.Some? then [methods[n - 1].args.value] else [])
  }

  function CountSshDirect(methods: seq<Method>, n: nat): nat
    requires n <= |methods|
  {
    if n == 0 then 0 else CountSshDirect(methods, n - 1) + (if IsSshDirect(methods[n - 1]) then 1 else 0)
  }

  /** How many methods the loop looked at. */
  function Stop(result: LoopResult, count: nat): nat {
    match result
    case Yielded(i, _, _) => i + 1
    case MissingKey(i, _) => i
    case Exhausted(_) => count
  }

  /** The for loop over response['methods']: only ssh_direct methods are attempted, each failure is
      appended to failed_attempts, and the first channel obtained ends the loop. */
  method ConnectLoop(methods: seq<Method>, outcomes: seq<Attempt>)
    returns (result: LoopResult, attempts: seq<MethodArgs>)
    requires |outcomes| == |methods|
    ensures result == RunFrom(methods, outcomes, 0, [])
    ensures Stop(result, |methods|) <= |methods| && attempts == ArgsOf(methods, Stop(result, |methods|))
  {
    var failedAttempts: seq<string> := [];
    attempts := [];
    var i := 0;
    while i < |methods|
      invariant 0 <= i <= |methods|
      invariant RunFrom(methods, outcomes, 0, []) == RunFrom(methods, outcomes, i, failedAttempts)
      invariant attempts == ArgsOf(methods, i)
    {
      var meth := methods[i];
      if meth.kind.None? {
        return MissingKey(i, failedAttempts), attempts;
      }
      if meth.kind.value == MethodSshDirect {
        if meth.args.None? {
          return MissingKey(i, failedAttempts), attempts;
        }
        attempts := attempts + [meth.args.value];
        match outcomes[i] {
          case Succeeded(chan) =>
            return Yielded(i, chan, failedAttempts), attempts;
          case Failed(attemptFailed) =>
            failedAttempts := failedAttempts + [attemptFailed];
        }
      }
      i := i + 1;
    }
    result := Exhausted(failedAttempts);
  }

  /** Past a skipped or failed method, the loop goes on with that method's failure recorded. */
  lemma RunStep(methods: seq<Method>, outcomes: seq<Attempt>, k: nat)
    requires |outcomes| == |methods| && k < |methods|
    requires Passes(methods, outcomes, k)
    ensures RunFrom(methods, outcomes, k, FailuresOf(methods, outcomes, k))
            == RunFrom(methods, outcomes, k + 1, FailuresOf(methods, outcomes, k + 1))
  {
    var fs := FailuresOf(methods, outcomes, k);
    if IsSshDirect(methods[k]) {
      assert FailuresOf(methods, outcomes, k + 1) == fs + [outcomes[k].error];
      assert RunFrom(methods, outcomes, k, fs) == RunFrom(methods, outcomes, k + 1, fs + [outcomes[k].error]);
    } else {
      assert FailuresOf(methods, outcomes, k + 1) == fs + [];
      assert fs + [] == fs;
    }
  }

  /** The first ssh_direct attempt that succeeds is the one whose channel is handed over, and the
      failures carried are those of the attempts before it, in order. */
  lemma {:induction false} YieldedIff(methods: seq<Method>, outcomes: seq<Attempt>, k: nat,
                                      i: nat, chan: Channel, fs: seq<string>)
    requires |outcomes| == |methods| && k <= |methods| && AllFailed(methods, outcomes, k)
    ensures RunFrom(methods, outcomes, k, FailuresOf(methods, outcomes, k)) == Yielded(i, chan, fs)
            <==> k <= i < |methods| && IsSshDirect(methods[i]) && methods[i].args.Some?
                 && outcomes[i] == Succeeded(chan)
                 && AllFailed(methods, outcomes, i) && fs == FailuresOf(methods, outcomes, i)
    decreases |methods| - k
  {
    if k < |methods| {
      if Passes(methods, outcomes, k) {
        assert AllFailed(methods, outcomes, k + 1);
        RunStep(methods, outcomes, k);
        YieldedIff(methods, outcomes, k + 1, i, chan, fs);
      }
    }
  }

  /** The loop runs out of methods exactly when every ssh_direct method failed, and then it carries
      all their errors in list order. */
  lemma {:induction false} ExhaustedIff(methods: seq<Method>, outcomes: seq<Attempt>, k: nat, fs: seq<string>)
    requires |outcomes| == |methods| && k <= |methods| && AllFailed(methods, outcomes, k)
    ensures RunFrom(methods, outcomes, k, FailuresOf(methods, outcomes, k)) == Exhausted(fs)
            <==> AllFailed(methods, outcomes, |methods|) && fs == FailuresOf(methods, outcomes, |methods|)
    decreases |methods| - k
  {
    if k < |methods| {
      if Passes(methods, outcomes, k) {
        assert AllFailed(methods, outcomes, k + 1);
        RunStep(methods, outcomes, k);
        ExhaustedIff(methods, outcomes, k + 1, fs);
      } else {
        assert !AllFailed(methods, outcomes, k + 1);
        assert !AllFailed(methods, outcomes, |methods|);
      }
    }
  }

  /** A method without its type, or an ssh_direct method without its arguments, stops the loop with
      KeyError, but only when no earlier attempt succeeded. */
  lemma {:induction false} MissingKeyIff(methods: seq<Method>, outcomes: seq<Attempt>, k: nat, i: nat, fs: seq<string>)
    requires |outcomes| == |methods| && k <= |methods| && AllFailed(methods, outcomes, k)
    ensures RunFrom(methods, outcomes, k, FailuresOf(methods, outcomes, k)) == MissingKey(i, fs)
            <==> k <= i < |methods| && (methods[i].kind.None? || (IsSshDirect(methods[i]) && methods[i].args.None?))
                 && AllFailed(methods, outcomes, i) && fs == FailuresOf(methods, outcomes, i)
    decreases |methods| - k
  {
    if k < |methods| {
      if Passes(methods, outcomes, k) {
        assert AllFailed(methods, outcomes, k + 1);
        RunStep(methods, outcomes, k);
        MissingKeyIff(methods, outcomes, k + 1, i, fs);
      }
    }
  }

  /** When all the ssh_direct methods fail, there is one failure for each of them: methods of any
      other type are skipped without a trace. */
  lemma {:induction false} FailureCount(methods: seq<Method>, outcomes: seq<Attempt>, n: nat)
    requires |outcomes| == |methods| && n <= |methods| && AllFailed(methods, outcomes, n)
    ensures |FailuresOf(methods, outcomes, n)| == CountSshDirect(methods, n)
    ensures |ArgsOf(methods, n)| == CountSshDirect(methods, n)
  {
    if n > 0 {
      assert AllFailed(methods, outcomes, n - 1) && Passes(methods, outcomes, n - 1);
      FailureCount(methods, outcomes, n - 1);
    }
  }

  /** What happens to a method of another type does not matter: replacing such methods by others
      of another type, or the outcomes at their positions, leaves the loop's result unchanged. */
  lemma {:induction false} OtherMethodsIgnored(methods: seq<Method>, outcomes: seq<Attempt>,
                                               methods': seq<Method>, outcomes': seq<Attempt>,
                                               k: nat, fs: seq<string>)
    requires |outcomes| == |methods| == |methods'| == |outcomes'| && k <= |methods|
    requires forall j :: 0 <= j < |methods| ==> IsOther(methods[j]) == IsOther(methods'[j])
    requires forall j :: 0 <= j < |methods| && !IsOther(methods[j]) ==>
               methods[j] == methods'[j] && outcomes[j] == outcomes'[j]
    ensures RunFrom(methods, outcomes, k, fs) == RunFrom(methods', outcomes', k, fs)
    decreases |methods| - k
  {
    if k < |methods| {
      if !IsOther(methods[k]) {
        assert methods[k] == methods'[k] && outcomes[k] == outcomes'[k];
        if IsSshDirect(methods[k]) && methods[k].args.Some? && outcomes[k].Failed? {
          OtherMethodsIgnored(methods, outcomes, methods', outcomes', k + 1, fs + [outcomes[k].error]);
        }
      } else {
        assert IsOther(methods'[k]);
        OtherMethodsIgnored(methods, outcomes, methods', outcomes', k + 1, fs);
      }
    }
  }

  /** The final raise: No_Methods_Available with the failure list when there is one, bare otherwise. */
  function NoMethodsError(failedAttempts: seq<string>): (e: ConnectError)
    ensures e.NoMethodsAvailable?
    ensures e.failures.Some? <==> failedAttempts != []
    ensures e.failures.Some? ==> e.failures.value == failedAttempts
  {
    if |failedAttempts| > 0 then NoMethodsAvailable(Some(failedAttempts)) else NoMethodsAvailable(None)
  }

  /** The handshake connect made: the address and the request sent there. */
  datatype Handshake = Handshake(address: Endpoint, request: HandshakeRequest)

  /** connect up to the first yield: the host rewrite, the handshake (whose response is given, the
      onion connection being outside the model), then the method loop and its final raise. */
  method Connect(ipvsHost: string, response: HandshakeResponse, outcomes: seq<Attempt>)
    returns (handshake: Option<Handshake>, attempts: seq<MethodArgs>, result: Result<Channel, ConnectError>)
    requires response.JsonResponse? && response.methods.Some? ==> |outcomes| == |response.methods.value|
    ensures OnionHost(ipvsHost).Failure? ==> handshake == None && attempts == [] && result == Failure(ValueError)
    ensures OnionHost(ipvsHost).Success? ==>
              handshake == Some(Handshake(HandshakeAddress(OnionHost(ipvsHost).value), HandshakeReq()))
    ensures OnionHost(ipvsHost).Success? && response.NotJson? ==>
              attempts == [] && result == Failure(JsonDecodeError)
    ensures OnionHost(ipvsHost).Success? && response.JsonResponse? && response.methods.None? ==>
              attempts == [] && result == Failure(KeyError)
    ensures OnionHost(ipvsHost).Success? && response.JsonResponse? && response.methods.Some? ==>
              var methods := response.methods.value;
              var loop := RunFrom(methods, outcomes, 0, []);
              Stop(loop, |methods|) <= |methods| && attempts == ArgsOf(methods, Stop(loop, |methods|))
              && result == match loop
                           case Yielded(_, chan, _) => Success(chan)
                           case Exhausted(fs) => Failure(NoMethodsError(fs))
                           case MissingKey(_, _) => Failure(KeyError)
  {
    var onion := OnionHost(ipvsHost);
    if onion.Failure? {
      return None, [], Failure(ValueError);
    }
    handshake := Some(Handshake(HandshakeAddress(onion.value), HandshakeReq()));
    if response.NotJson? {
      return handshake, [], Failure(JsonDecodeError);
    }
    if response.methods.None? {
      return handshake, [], Failure(KeyError);
    }
    var loop;
    loop, attempts := ConnectLoop(response.methods.value, outcomes);
    match loop {
      case Yielded(_, chan, _) => result := Success(chan);
      case Exhausted(failedAttempts) => result := Failure(NoMethodsError(failedAttempts));
      case MissingKey(_, _) => result := Failure(KeyError);
    }
  }

  // ---- serve ----

  /** The bytes the responder reads, as json.loads sees them: not JSON, JSON that is not an object
      (a list, a string, a number, a boolean or null), or an object. */
  datatype RequestBody = UndecodableRequest | NonObjectRequest | ObjectRequest(request: HandshakeRequest)

  /** What handshake_handler does with a request: answer with one ssh_direct method, close without
      a word, or raise: the decode error of json.loads, the TypeError of subscripting a value that is
      not an object, or the KeyError of a missing version key. */
  datatype HandshakeReply =
    | Replied(response: HandshakeResponse)
    | ClosedSilently
    | RequestDecodeError
    | RequestTypeError
    | RequestKeyError

  /** True when the body is an object whose version equals 1: the one request that is answered. */
  predicate AsksVersionOne(body: RequestBody) {
    body.ObjectRequest? && IpvsProtocolVersionKey in body.request.fields
    && EqualsOne(body.request.fields[IpvsProtocolVersionKey])
  }

  /** handshake_handler: version 1 is answered with the public SSH endpoint and the encoded host key;
      any other version is closed with nothing sent; a body that is not an object with that key raises. */
  function HandshakeHandler(body: RequestBody, sshPublicAddr: Endpoint, hostKeyText: string)
    : (r: HandshakeReply)
    ensures r == RequestDecodeError <==> body.UndecodableRequest?
    ensures r == RequestTypeError <==> body.NonObjectRequest?
    ensures r == RequestKeyError <==> body.ObjectRequest? && IpvsProtocolVersionKey !in body.request.fields
    ensures r.Replied? <==> AsksVersionOne(body)
    ensures r.Replied? ==> r.response.JsonResponse? && r.response.methods == Some([Method(Some(MethodSshDirect), Some(MethodArgs(sshPublicAddr, hostKeyText)))])
  {
    match body
    case UndecodableRequest => RequestDecodeError
    case NonObjectRequest => RequestTypeError
    case ObjectRequest(request) =>
      if IpvsProtocolVersionKey !in request.fields then RequestKeyError
      else if EqualsOne(request.fields[IpvsProtocolVersionKey]) then
        Replied(JsonResponse(Some([Method(Some(MethodSshDirect), Some(MethodArgs(sshPublicAddr, hostKeyText)))])))
      else ClosedSilently
  }

  /** What the client's json.loads makes of the responder's reply: the answer, or, when the socket is
      closed without one, the empty reply, which is not JSON. */
  function Received(reply: HandshakeReply): HandshakeResponse
  {
    if reply.Replied? then reply.response else NotJson
  }

  /** A client whose request the responder does not answer, because it closes the socket or raises,
      reads an empty reply, which json.loads rejects; connect then fails with its decode error. */
  lemma UnansweredRequest(body: RequestBody, sshPublicAddr: Endpoint, hostKeyText: string)
    ensures Received(HandshakeHandler(body, sshPublicAddr, hostKeyText)) == NotJson <==> !AsksVersionOne(body)
  {
    var reply := HandshakeHandler(body, sshPublicAddr, hostKeyText);
    if AsksVersionOne(body) {
      assert reply.Replied? && reply.response.JsonResponse?;
    }
  }

  /** The onion ports serve registers: 230 forwarded to the handshake server, nothing else. */
  function PortMappings(hsBackendPort: int): (m: map<int, int>)
    ensures m.Keys == {IpvsOnionHandshakePort} && m[IpvsOnionHandshakePort] == hsBackendPort
  {
    map[IpvsOnionHandshakePort := hsBackendPort]
  }

  /** The address serve yields for an onion service id. */
  function ServeAddress(serviceId: string): (a: string)
    ensures |a| == |serviceId| + 5 && a[..|serviceId|] == serviceId && a[|serviceId|..] == ".ipvs"
  {
    serviceId + ".ipvs"
  }

  /** The address serve publishes leads connect back to the same onion service, provided the service
      id holds no ".ipvs" of its own. */
  lemma ServeConnectHost(serviceId: string)
    requires forall p :: !OccursAt(serviceId, ".ipvs", p)
    ensures OnionHost(ServeAddress(serviceId)) == Success(serviceId + ".onion")
  {
    var a := ServeAddress(serviceId);
    var n := |serviceId|;
    assert OccursAt(a, ".ipvs", n);
    forall p | 0 <= p < n
      ensures !OccursAt(a, ".ipvs", p)
    {
      if p + 5 <= n {
        assert a[p..p + 5] == serviceId[p..p + 5];
        assert !OccursAt(serviceId, ".ipvs", p);
      } else {
        assert a[n] == '.';
        assert a[p..p + 5][n - p] == a[n];
        assert ".ipvs"[n - p] != '.';
      }
    }
    var i := IndexOf(a, ".ipvs");
    assert i.Some?;
    assert i.value == n;
  }

  /** Connect's own request is one the responder answers, and a client that reads that answer makes
      exactly one attempt, at the published endpoint, and gets its channel or No_Methods_Available
      carrying that one failure. */
  lemma HandshakeRoundTrip(sshPublicAddr: Endpoint, hostKeyText: string, outcome: Attempt)
    ensures var response := Received(HandshakeHandler(ObjectRequest(HandshakeReq()), sshPublicAddr, hostKeyText));
            response.JsonResponse? && response.methods.Some?
    ensures var methods := Received(HandshakeHandler(ObjectRequest(HandshakeReq()), sshPublicAddr, hostKeyText)).methods.value;
            var loop := RunFrom(methods, [outcome], 0, []);
            |methods| == 1
            && (outcome.Succeeded? ==> loop == Yielded(0, outcome.chan, []))
            && (outcome.Failed? ==> loop == Exhausted([outcome.error])
                                    && NoMethodsError(loop.failures) == NoMethodsAvailable(Some([outcome.error])))
            && ArgsOf(methods, Stop(loop, 1)) == [MethodArgs(sshPublicAddr, hostKeyText)]
  {
    var methods := Received(HandshakeHandler(ObjectRequest(HandshakeReq()), sshPublicAddr, hostKeyText)).methods.value;
    assert ArgsOf(methods, 1) == [MethodArgs(sshPublicAddr, hostKeyText)];
  }
}

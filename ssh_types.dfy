/** The values the tunnel servers exchange with the secure-transport library (paramiko):
    endpoints, opaque public keys, channels and the callbacks' result codes. */
module SshTypes {
  import opened Text

  /** A (host, port) pair as the socket and SSH layers pass it around. */
  datatype Endpoint = Endpoint(host: string, port: int)

  /** A public key, treated as an opaque value: its algorithm name and its blob. */
  datatype PublicKey = PublicKey(keyType: string, blob: seq<byte>)

  /** The answer of an authentication callback (section 7 of RFC 4252). */
  datatype AuthResult = AuthSuccessful | AuthFailed

  /** The answer of a channel-open callback (section 5.1 of RFC 4254). */
  datatype OpenResult = OpenSucceeded | OpenFailedAdministrativelyProhibited
  {
    /** The value paramiko uses: 0 for success, otherwise the RFC 4254 reason code. */
    function Code(): nat {
      match this
      case OpenSucceeded => 0
      case OpenFailedAdministrativelyProhibited => 1
    }
  }

  /** One callback the secure-transport library makes while it negotiates a connection: public-key
      authentication (section 7 of RFC 4252) or a direct-tcpip channel open (section 7.2 of RFC 4254). */
  datatype ClientMessage =
    | AuthPublickey(username: string, key: PublicKey)
    | OpenDirectTcpip(chanid: int, origin: Endpoint, destination: Endpoint)

  /** A handler's answer to one callback. */
  datatype Reply = AuthReply(auth: AuthResult) | OpenReply(open: OpenResult)

  /** A channel returned by transport.accept(): its local id and whether it is still open. */
  datatype Channel = Channel(chanid: int, active: bool)

  /** Names a registered port handler; the handler itself is caller code. */
  type HandlerId = string

  const Loopback: string := "127.0.0.1"
  const IpvsUsername: string := "ipvs"
  const PublickeyAuth: string := "publickey"
}

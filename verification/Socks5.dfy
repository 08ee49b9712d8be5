/** The SOCKS5 handshake, sections 3, 4 and 6 of RFC 1928 and section 2 of RFC 1929,
    as a state machine that is fed whatever arrives and drained as far as the socket
    takes it. */
module Socks5 {
  import opened Prelude
  import opened Octets

  /** What the handshake is about: the credentials, if any, and the encoded request. */
  datatype Config = Config(username: Bytes, password: Bytes, request: Bytes)

  datatype Status = NeedWrite | NeedRead | Done | Failed

  /** Which reply is read next. */
  datatype Step = MethodReply | AuthReply | ReplyHead | ReplyAddrLen | ReplyAddr | ReplyPort

  datatype Failure =
    | NoFailure
    | NoPeer | NameTooLong | CredentialTooLong | LocalPeer | NeedsAddress
    | NotSocks5 | NoMethodAccepted | MethodNotOffered | AuthVersion | AuthRejected
    | ReplyVersion | UnknownAddressType | EmptyName | Refused(reply: Byte) | HungUp

  datatype Handshake = Handshake(
    config: Config, status: Status, step: Step,
    out: Bytes, sent: nat, input: Bytes, need: nat,
    atyp: Byte, reply: Byte, address: Bytes, name: Bytes, port: nat, failure: Failure)

  const VERSION: Byte := 5
  const IPV4: Byte := 1
  const DOMAIN: Byte := 3
  const IPV6: Byte := 4
  const USERPASS: Byte := 2

  predicate HasCredentials(c: Config) {
    c.username != [] || c.password != []
  }

  function Greeting(c: Config): (g: Bytes)
    ensures |g| >= 3
  {
    if HasCredentials(c) then [VERSION, 2, 0, USERPASS] else [VERSION, 1, 0]
  }

  function Auth(c: Config): (a: Bytes)
    requires |c.username| <= 255 && |c.password| <= 255
    ensures |a| >= 3
  {
    [1, |c.username| as Byte] + c.username + [|c.password| as Byte] + c.password
  }

  /** What the constructor checks before anything is sent. */
  predicate ConfigOk(c: Config) {
    |c.username| <= 255 && |c.password| <= 255 && c.request != []
  }

  // ---- encoding the request ----------------------------------------------------------

  const CONNECT: Byte := 0x01
  const RESOLVE: Byte := 0xF0
  const RESOLVE_PTR: Byte := 0xF1

  /** What parsing the target as an address literal says about it, and whether that
      address is on the local network. */
  datatype Peer = Named | V4(octets: Bytes, local: bool) | V6(octets: Bytes, local: bool)

  predicate PeerOk(p: Peer) {
    (p.V4? ==> |p.octets| == 4) && (p.V6? ==> |p.octets| == 16)
  }

  function Lower(b: Byte): Byte {
    if 65 <= b <= 90 then b + 32 else b
  }

  predicate Is(name: Bytes, text: string) {
    |name| == |text| && forall i :: 0 <= i < |name| ==> Lower(name[i]) as int == text[i] as int
  }

  /** The last label with its dot, or nothing when there is no dot. */
  function LastLabel(name: Bytes): Bytes {
    if name == [] then []
    else if 46 !in name then []
    else if name[0] == 46 && 46 !in name[1..] then name
    else LastLabel(name[1..])
  }

  /** The names that cannot mean anything but this machine or this network. */
  predicate IsLocalName(name: Bytes) {
    Is(name, "localhost") || Is(LastLabel(name), ".local") || Is(LastLabel(name), ".localhost")
  }

  /** Why nothing may be asked of the proxy, checked in this order. */
  function Refusal(username: Bytes, password: Bytes, command: Byte, target: Bytes, peer: Peer, allowPrivate: bool): Failure {
    if target == [] then NoPeer
    else if |target| > 255 then NameTooLong
    else if |username| > 255 || |password| > 255 then CredentialTooLong
    else if !allowPrivate && (if peer.Named? then IsLocalName(target) else peer.local) then LocalPeer
    else if peer.Named? && command == RESOLVE_PTR then NeedsAddress
    else NoFailure
  }

  function EncodeAddress(target: Bytes, peer: Peer): Bytes
    requires |target| <= 255
  {
    match peer
    case V4(octets, _) => [IPV4] + octets
    case V6(octets, _) => [IPV6] + octets
    case Named => [DOMAIN, |target| as Byte] + target
  }

  function EncodeRequest(command: Byte, target: Bytes, port: nat, peer: Peer): (r: Bytes)
    requires |target| <= 255 && port < 0x1_0000
    ensures r != []
  {
    [VERSION, command, 0] + EncodeAddress(target, peer) + [(port / 256) as Byte, (port % 256) as Byte]
  }

  // ---- the transitions ---------------------------------------------------------------

  function Fail(h: Handshake, why: Failure): Handshake {
    h.(status := Failed, failure := why, out := [], sent := 0, need := 0)
  }

  function Expect(h: Handshake, step: Step, bytes: nat): Handshake {
    h.(step := step, need := bytes, input := [], status := NeedRead)
  }

  function Queue(h: Handshake, bytes: Bytes, reply: Step): Handshake {
    h.(out := bytes, sent := 0, status := NeedWrite, step := reply)
  }

  function Start(c: Config): Handshake {
    Handshake(c, NeedWrite, MethodReply, Greeting(c), 0, [], 0, 0, 0, [], [], 0, NoFailure)
  }

  /** The socket took `n` bytes. */
  function ConsumeOutgoing(h: Handshake, n: nat): Handshake {
    if h.status != NeedWrite then h
    else
      var sent := Least(h.sent + n, |h.out|);
      if sent < |h.out| then h.(sent := sent)
      else match h.step
        case MethodReply => Expect(h.(sent := sent), MethodReply, 2)
        case AuthReply => Expect(h.(sent := sent), AuthReply, 2)
        case _ => Expect(h.(sent := sent), ReplyHead, 4)
  }

  function OnMethodReply(h: Handshake): Handshake
    requires |h.input| == 2 && ConfigOk(h.config)
  {
    if h.input[0] != VERSION then Fail(h, NotSocks5)
    else if h.input[1] == 0xFF then Fail(h, NoMethodAccepted)
    else if h.input[1] == 0 then Queue(h, h.config.request, ReplyHead)
    else if h.input[1] == USERPASS && HasCredentials(h.config) then Queue(h, Auth(h.config), AuthReply)
    else Fail(h, MethodNotOffered)
  }

  function OnAuthReply(h: Handshake): Handshake
    requires |h.input| == 2
  {
    if h.input[0] != 1 then Fail(h, AuthVersion)
    else if h.input[1] != 0 then Fail(h, AuthRejected)
    else Queue(h, h.config.request, ReplyHead)
  }

  function OnReplyHead(h: Handshake): Handshake
    requires |h.input| == 4
  {
    if h.input[0] != VERSION then Fail(h, ReplyVersion)
    else
      var g := h.(reply := h.input[1], atyp := h.input[3]);
      if g.atyp == IPV4 then Expect(g, ReplyAddr, 4)
      else if g.atyp == IPV6 then Expect(g, ReplyAddr, 16)
      else if g.atyp == DOMAIN then Expect(g, ReplyAddrLen, 1)
      else Fail(g, UnknownAddressType)
  }

  function OnReplyAddrLen(h: Handshake): Handshake
    requires |h.input| == 1
  {
    if h.input[0] == 0 then Fail(h, EmptyName) else Expect(h, ReplyAddr, h.input[0] as nat)
  }

  function OnReplyAddr(h: Handshake): Handshake {
    var g := if h.atyp == IPV4 || h.atyp == IPV6 then h.(address := h.input) else h.(name := h.input);
    Expect(g, ReplyPort, 2)
  }

  function OnReplyPort(h: Handshake): Handshake
    requires |h.input| == 2
  {
    var g := h.(port := 256 * h.input[0] as nat + h.input[1] as nat, input := [], need := 0);
    if g.reply != 0 then Fail(g, Refused(g.reply)) else g.(status := Done)
  }

  /** How many bytes each reply is read in. */
  predicate NeedFits(h: Handshake) {
    match h.step
    case MethodReply => h.need == 2
    case AuthReply => h.need == 2
    case ReplyHead => h.need == 4
    case ReplyAddrLen => h.need == 1
    case ReplyAddr => 1 <= h.need <= 255
    case ReplyPort => h.need == 2
  }

  /** The invariant of the machine on its own. */
  predicate Sane(h: Handshake) {
    && ConfigOk(h.config)
    && h.sent <= |h.out|
    && (h.status == NeedWrite ==> h.sent < |h.out|)
    && (h.status == NeedRead ==> |h.input| < h.need && NeedFits(h))
  }

  /** All bytes of a reply have arrived. */
  function ConsumeStep(h: Handshake): Handshake
    requires ConfigOk(h.config) && |h.input| == h.need && NeedFits(h)
  {
    match h.step
    case MethodReply => OnMethodReply(h)
    case AuthReply => OnAuthReply(h)
    case ReplyHead => OnReplyHead(h)
    case ReplyAddrLen => OnReplyAddrLen(h)
    case ReplyAddr => OnReplyAddr(h)
    case ReplyPort => OnReplyPort(h)
  }

  lemma ConsumeStepSane(h: Handshake)
    requires ConfigOk(h.config) && |h.input| == h.need && NeedFits(h) && h.sent <= |h.out|
    ensures Sane(ConsumeStep(h)) && ConsumeStep(h).config == h.config
  {
  }

  datatype Fed = Fed(h: Handshake, consumed: nat)

  /** What arrived is taken piece by piece, and no further than the grammar reaches. */
  function Feed(h: Handshake, data: Bytes): (r: Fed)
    requires Sane(h)
    ensures Sane(r.h) && r.consumed <= |data| && r.h.config == h.config
    decreases |data|
  {
    if h.status != NeedRead || data == [] then Fed(h, 0)
    else
      var take := Least(|data|, h.need - |h.input|);
      var g := h.(input := h.input + data[..take]);
      if |g.input| < g.need then Fed(g, take)
      else
        ConsumeStepSane(g);
        var r := Feed(ConsumeStep(g), data[take..]);
        Fed(r.h, take + r.consumed)
  }

  function Closed(h: Handshake): Handshake {
    if h.status == Done || h.status == Failed then h else Fail(h, HungUp)
  }

  function Wanted(h: Handshake): nat {
    if h.status != NeedRead || |h.input| >= h.need then 0 else h.need - |h.input|
  }

  /** Whenever bytes are read, between 1 and 255 are wanted. */
  lemma WantedInRange(h: Handshake)
    requires Sane(h)
    ensures h.status == NeedRead <==> 1 <= Wanted(h) <= 255
  {
  }

  // ---- what the proxy reads -----------------------------------------------------------

  datatype Request = Request(command: Byte, atyp: Byte, address: Bytes, port: nat)

  /** A request as section 4 of RFC 1928 lays it out. */
  function ReadRequest(s: Bytes): Option<Request> {
    if |s| < 5 || s[0] != VERSION || s[2] != 0 then None
    else
      var start := if s[3] == DOMAIN then 5 else 4;
      var length := if s[3] == IPV4 then 4 else if s[3] == IPV6 then 16 else s[4] as nat;
      var end := start + length;
      if s[3] !in {IPV4, IPV6, DOMAIN} || |s| != end + 2 then None
      else Some(Request(s[1], s[3], s[start..end], 256 * s[end] as nat + s[end + 1] as nat))
  }

  /** Credentials as section 2 of RFC 1929 lays them out. */
  function ReadAuth(s: Bytes): Option<(Bytes, Bytes)> {
    if |s| < 2 || s[0] != 1 then None
    else
      var u := 2 + s[1] as nat;
      if |s| <= u || |s| != u + 1 + s[u] as nat then None
      else Some((s[2..u], s[u + 1..]))
  }

  /** The proxy reads back the command, the address or the name as it was given, and
      the port. */
  lemma RequestRoundTrip(command: Byte, target: Bytes, port: nat, peer: Peer)
    requires |target| <= 255 && port < 0x1_0000 && PeerOk(peer)
    ensures ReadRequest(EncodeRequest(command, target, port, peer)) ==
            Some(Request(command, if peer.V4? then IPV4 else if peer.V6? then IPV6 else DOMAIN,
                         if peer.Named? then target else peer.octets, port))
  {
    hide EncodeRequest;
    var a := if peer.Named? then target else peer.octets;
    var front := if peer.Named? then [VERSION, command, 0, DOMAIN, |target| as Byte]
                 else [VERSION, command, 0, if peer.V4? then IPV4 else IPV6];
    EncodedParts(command, target, port, peer, front, a);
    PartsAt(front, a, [(port / 256) as Byte, (port % 256) as Byte]);
  }

  lemma EncodedParts(command: Byte, target: Bytes, port: nat, peer: Peer, front: Bytes, a: Bytes)
    requires |target| <= 255 && port < 0x1_0000 && PeerOk(peer)
    requires a == if peer.Named? then target else peer.octets
    requires front == if peer.Named? then [VERSION, command, 0, DOMAIN, |target| as Byte]
                      else [VERSION, command, 0, if peer.V4? then IPV4 else IPV6]
    ensures EncodeRequest(command, target, port, peer) == front + a + [(port / 256) as Byte, (port % 256) as Byte]
  {
  }

  lemma PartsAt(front: Bytes, a: Bytes, end: Bytes)
    requires |end| == 2
    ensures var s, k := front + a + end, |front| + |a|;
            && (forall i :: 0 <= i < |front| ==> s[i] == front[i])
            && s[|front|..k] == a && s[k] == end[0] && s[k + 1] == end[1]
  {
  }

  lemma AuthRoundTrip(c: Config)
    requires ConfigOk(c)
    ensures ReadAuth(Auth(c)) == Some((c.username, c.password))
  {
    var s := Auth(c);
    var u := 2 + |c.username|;
    assert s[2..u] == c.username && s[u] == |c.password| as Byte && s[u + 1..] == c.password;
  }
}

/** What holds over every run of the handshake, for every reply stream, every cut of
    it into fragments and every pattern of partial writes. */
module Socks5Protocol {
  import opened Prelude
  import opened Octets
  import opened Socks5

  // ---- the grammar of the replies, in closed form --------------------------------------

  /** A method the greeting offered. */
  predicate Offered(c: Config, m: Byte) {
    m == 0 || (m == USERPASS && HasCredentials(c))
  }

  function Until(s: Bytes, n: nat): Option<nat> {
    if |s| < n then None else Some(n)
  }

  /** Where the reply that begins at `k` ends. */
  function ReplyEnd(s: Bytes, k: nat): Option<nat> {
    if |s| < k + 4 then None
    else if s[k] != VERSION then Some(k + 4)
    else if s[k + 3] == IPV4 then Until(s, k + 10)
    else if s[k + 3] == IPV6 then Until(s, k + 22)
    else if s[k + 3] != DOMAIN then Some(k + 4)
    else if |s| < k + 5 then None
    else if s[k + 4] == 0 then Some(k + 5)
    else Until(s, k + 7 + s[k + 4] as nat)
  }

  /** How many bytes of what the proxy side sends belong to the handshake, as soon as
      enough has arrived to tell: a method selection, a credentials reply if that
      method was selected, and a reply; or as far as the first of them that is
      unacceptable. */
  function End(c: Config, s: Bytes): Option<nat> {
    if |s| < 2 then None
    else if s[0] != VERSION || !Offered(c, s[1]) then Some(2)
    else if s[1] == 0 then ReplyEnd(s, 2)
    else if |s| < 4 then None
    else if s[2] != 1 || s[3] != 0 then Some(4)
    else ReplyEnd(s, 4)
  }

  /** More bytes behind it do not change where the handshake ends. */
  lemma EndIsStable(c: Config, s: Bytes, more: Bytes)
    requires End(c, s).Some?
    ensures End(c, s).value <= |s| && End(c, s + more) == End(c, s)
  {
  }

  /** Where the address in a reply begins and ends. */
  function AddressStart(t: Bytes): nat
    requires |t| >= 4
  {
    if t[3] == DOMAIN then 5 else 4
  }

  predicate AddressKnown(t: Bytes) {
    |t| >= 4 && t[0] == VERSION
    && (t[3] == IPV4 || t[3] == IPV6 || (t[3] == DOMAIN && |t| >= 5 && t[4] != 0))
  }

  function AddressEnd(t: Bytes): nat
    requires AddressKnown(t)
  {
    if t[3] == IPV4 then 8 else if t[3] == IPV6 then 20 else 5 + t[4] as nat
  }

  /** What the proxy side has said: nothing conclusive yet, yes, or why not. */
  datatype Verdict = Pending | Granted | Denied(why: Failure)

  /** The verdict of a reply. */
  function ReplyVerdict(t: Bytes): Verdict {
    if |t| < 4 then Pending
    else if t[0] != VERSION then Denied(ReplyVersion)
    else if t[3] != IPV4 && t[3] != IPV6 && t[3] != DOMAIN then Denied(UnknownAddressType)
    else if t[3] == DOMAIN && |t| < 5 then Pending
    else if t[3] == DOMAIN && t[4] == 0 then Denied(EmptyName)
    else if |t| < AddressEnd(t) + 2 then Pending
    else if t[1] == 0 then Granted
    else Denied(Refused(t[1]))
  }

  /** The verdict of all that the proxy side sends. */
  function VerdictOf(c: Config, s: Bytes): Verdict {
    if |s| < 2 then Pending
    else if s[0] != VERSION then Denied(NotSocks5)
    else if s[1] == 0xFF then Denied(NoMethodAccepted)
    else if !Offered(c, s[1]) then Denied(MethodNotOffered)
    else if s[1] == 0 then ReplyVerdict(s[2..])
    else if |s| < 4 then Pending
    else if s[2] != 1 then Denied(AuthVersion)
    else if s[3] != 0 then Denied(AuthRejected)
    else ReplyVerdict(s[4..])
  }

  lemma ReplyVerdictEnds(s: Bytes, k: nat)
    requires k <= |s|
    ensures ReplyVerdict(s[k..]) == Pending <==> ReplyEnd(s, k).None?
  {
  }

  /** There is a verdict exactly when the handshake is over by its grammar. */
  lemma VerdictEnds(c: Config, s: Bytes)
    ensures VerdictOf(c, s) == Pending <==> End(c, s).None?
  {
    hide ReplyVerdict, ReplyEnd;
    if |s| >= 2 { ReplyVerdictEnds(s, 2); }
    if |s| >= 4 { ReplyVerdictEnds(s, 4); }
  }

  lemma ReplyVerdictIsStable(t: Bytes, more: Bytes)
    requires ReplyVerdict(t) != Pending
    ensures ReplyVerdict(t + more) == ReplyVerdict(t)
  {
  }

  /** More bytes behind it do not change a verdict. */
  lemma VerdictIsStable(c: Config, s: Bytes, more: Bytes)
    requires VerdictOf(c, s) != Pending
    ensures VerdictOf(c, s + more) == VerdictOf(c, s)
  {
    hide ReplyVerdict;
    if |s| >= 2 {
      assert (s + more)[2..] == s[2..] + more;
      if ReplyVerdict(s[2..]) != Pending { ReplyVerdictIsStable(s[2..], more); }
    }
    if |s| >= 4 {
      assert (s + more)[4..] == s[4..] + more;
      if ReplyVerdict(s[4..]) != Pending { ReplyVerdictIsStable(s[4..], more); }
    }
  }

  // ---- runs -------------------------------------------------------------------------------

  datatype Action = Sent(n: nat) | Received(data: Bytes) | Hangup

  /** A handshake with the bytes it has consumed and the bytes it has sent so far. */
  datatype World = World(h: Handshake, got: Bytes, put: Bytes)

  function Begin(c: Config): World {
    World(Start(c), [], [])
  }

  function Act(w: World, a: Action): World
    requires Sane(w.h)
  {
    match a
    case Sent(n) =>
      var taken := if w.h.status == NeedWrite then w.h.out[w.h.sent..Least(w.h.sent + n, |w.h.out|)] else [];
      w.(h := ConsumeOutgoing(w.h, n), put := w.put + taken)
    case Received(data) =>
      var r := Feed(w.h, data);
      w.(h := r.h, got := w.got + data[..r.consumed])
    case Hangup => w.(h := Closed(w.h))
  }

  lemma ActSane(w: World, a: Action)
    requires Sane(w.h)
    ensures Sane(Act(w, a).h) && Act(w, a).h.config == w.h.config
  {
  }

  // ---- the invariant ------------------------------------------------------------------------

  /** What the proxy has said before the request goes out. */
  predicate Cleared(c: Config, got: Bytes) {
    got == [VERSION, 0] || (HasCredentials(c) && got == [VERSION, USERPASS, 1, 0])
  }

  /** What has been sent by then. */
  function Preamble(c: Config, got: Bytes): Bytes
    requires ConfigOk(c)
  {
    if got == [VERSION, 0] then Greeting(c) else Greeting(c) + Auth(c)
  }

  /** The length of the negotiation in front of the reply. */
  function Offset(got: Bytes): nat
    requires |got| >= 2
  {
    if got[1] == 0 then 2 else 4
  }

  /** The reply so far is `t`, and the fields hold what it says. */
  ghost predicate ReadingReply(h: Handshake, t: Bytes) {
    match h.step
    case ReplyHead => h.input == t
    case ReplyAddrLen => h.input == [] && |t| == 4 && t[0] == VERSION && t[3] == DOMAIN && h.reply == t[1] && h.atyp == DOMAIN
    case ReplyAddr =>
      && AddressKnown(t) && h.reply == t[1] && h.atyp == t[3]
      && |t| >= AddressStart(t) && h.input == t[AddressStart(t)..] && h.need == AddressEnd(t) - AddressStart(t)
    case ReplyPort =>
      && AddressKnown(t) && h.reply == t[1] && h.atyp == t[3]
      && |t| >= AddressEnd(t) && h.input == t[AddressEnd(t)..]
      && AddressRead(h, t)
    case _ => false
  }

  /** The address or name of the reply is the one recorded. */
  ghost predicate AddressRead(h: Handshake, t: Bytes)
    requires AddressKnown(t) && |t| >= AddressEnd(t)
  {
    (if t[3] == DOMAIN then h.name else h.address) == t[AddressStart(t)..AddressEnd(t)]
  }

  /** What the proxy has said when the bytes answered by `step` go out. */
  ghost predicate MaySend(c: Config, step: Step, got: Bytes) {
    match step
    case MethodReply => got == []
    case AuthReply => HasCredentials(c) && got == [VERSION, USERPASS]
    case ReplyHead => Cleared(c, got)
    case _ => false
  }

  /** Those bytes, and the ones that went out before them. */
  function Message(c: Config, step: Step): Bytes
    requires ConfigOk(c)
  {
    match step
    case MethodReply => Greeting(c)
    case AuthReply => Auth(c)
    case _ => c.request
  }

  function Before(c: Config, step: Step, got: Bytes): Bytes
    requires ConfigOk(c)
  {
    match step
    case MethodReply => []
    case AuthReply => Greeting(c)
    case _ => Preamble(c, got)
  }

  ghost predicate Writing(w: World)
    requires ConfigOk(w.h.config)
  {
    var h, c := w.h, w.h.config;
    && MaySend(c, h.step, w.got)
    && h.out == Message(c, h.step) && h.sent <= |h.out|
    && w.put == Before(c, h.step, w.got) + h.out[..h.sent]
  }

  /** The request is away and the reply is being read. */
  ghost predicate Awaiting(w: World)
    requires ConfigOk(w.h.config)
  {
    var c := w.h.config;
    && |w.got| >= 2 && Offset(w.got) <= |w.got|
    && var k := Offset(w.got);
    && Cleared(c, w.got[..k])
    && w.put == Preamble(c, w.got[..k]) + c.request
  }

  ghost predicate Reading(w: World)
    requires ConfigOk(w.h.config)
  {
    var h, c := w.h, w.h.config;
    match h.step
    case MethodReply => w.got == h.input && w.put == Greeting(c)
    case AuthReply => HasCredentials(c) && w.got == [VERSION, USERPASS] + h.input && w.put == Greeting(c) + Auth(c)
    case _ => Awaiting(w) && ReadingReply(h, w.got[Offset(w.got)..])
  }

  /** The result is what the reply says. */
  ghost predicate Answered(w: World)
    requires ConfigOk(w.h.config)
  {
    && Awaiting(w)
    && var h, t := w.h, w.got[Offset(w.got)..];
    && AddressKnown(t) && |t| == AddressEnd(t) + 2 && AddressRead(h, t)
    && t[1] == h.reply == 0
    && h.port == 256 * t[|t| - 2] as nat + t[|t| - 1] as nat
  }

  /** Only what the proxy has asked for so far has been sent. */
  ghost predicate SentInOrder(c: Config, got: Bytes, put: Bytes)
    requires ConfigOk(c)
  {
    || put <= Greeting(c)
    || (HasCredentials(c) && [VERSION, USERPASS] <= got && put <= Greeting(c) + Auth(c))
    || ([VERSION, 0] <= got && put <= Greeting(c) + c.request)
    || (HasCredentials(c) && [VERSION, USERPASS, 1, 0] <= got && put <= Greeting(c) + Auth(c) + c.request)
  }

  /** The bytes consumed are all of the handshake, and this is what they say. */
  ghost predicate Decided(w: World, v: Verdict) {
    End(w.h.config, w.got) == Some(|w.got|) && VerdictOf(w.h.config, w.got) == v
  }

  ghost predicate Inv(w: World) {
    && Sane(w.h)
    && match w.h.status
       case NeedWrite => Writing(w)
       case NeedRead => Reading(w)
       case Done => Answered(w) && Decided(w, Granted)
       case Failed => SentInOrder(w.h.config, w.got, w.put) && (w.h.failure == HungUp || Decided(w, Denied(w.h.failure)))
  }

  lemma InvBegins(c: Config)
    requires ConfigOk(c)
    ensures Inv(Begin(c))
  {
  }

  lemma TakeMore(a: Bytes, out: Bytes, sent: nat, upto: nat)
    requires sent <= upto <= |out|
    ensures (a + out[..sent]) + out[sent..upto] == a + out[..upto]
    ensures upto == |out| ==> a + out[..upto] == a + out
  {
    assert out[..sent] + out[sent..upto] == out[..upto];
    assert out[..|out|] == out;
  }

  /** Nothing is left to write: the reply to it is read next. */
  lemma AllSent(w: World)
    requires Sane(w.h) && w.h.status == NeedRead && w.h.input == []
    requires MaySend(w.h.config, w.h.step, w.got)
    requires w.put == Before(w.h.config, w.h.step, w.got) + Message(w.h.config, w.h.step)
    ensures Inv(w)
  {
    var c := w.h.config;
    if w.h.step == MethodReply {
      assert [] + Greeting(c) == Greeting(c);
    } else if w.h.step == AuthReply {
      assert [VERSION, USERPASS] + [] == w.got;
    } else {
      var k := Offset(w.got);
      assert w.got[..k] == w.got && w.got[k..] == [];
    }
  }

  lemma SentKeeps(w: World, n: nat)
    requires Inv(w)
    ensures Inv(Act(w, Sent(n)))
  {
    hide Message, Before, MaySend, End, Reading, Answered, SentInOrder;
    var h, v := w.h, Act(w, Sent(n));
    ActSane(w, Sent(n));
    if h.status == NeedWrite {
      var upto := Least(h.sent + n, |h.out|);
      TakeMore(Before(h.config, h.step, w.got), h.out, h.sent, upto);
      if upto == |h.out| {
        SendingStep(h.config, h.step, w.got);
        AllSent(v);
      }
    } else {
      assert w.put + [] == w.put;
    }
  }

  lemma SendingStep(c: Config, step: Step, got: Bytes)
    requires MaySend(c, step, got)
    ensures step == MethodReply || step == AuthReply || step == ReplyHead
  {
  }

  // ---- reading ------------------------------------------------------------------------------

  function Took(w: World, x: Bytes): World {
    World(w.h.(input := w.h.input + x), w.got + x, w.put)
  }

  lemma SuffixAbsorbs(t: Bytes, k: nat, x: Bytes)
    requires k <= |t|
    ensures (t + x)[k..] == t[k..] + x
  {
  }

  lemma SliceAbsorbs(t: Bytes, j: nat, k: nat, x: Bytes)
    requires j <= k <= |t|
    ensures (t + x)[j..k] == t[j..k]
  {
  }

  lemma AddressAbsorbs(t: Bytes, x: Bytes)
    requires AddressKnown(t)
    ensures AddressKnown(t + x) && AddressStart(t + x) == AddressStart(t) <= AddressEnd(t) == AddressEnd(t + x)
    ensures (t + x)[1] == t[1] && (t + x)[3] == t[3]
  {
  }

  lemma ReplyAddrAbsorbs(h: Handshake, t: Bytes, x: Bytes)
    requires ReadingReply(h, t) && h.step == ReplyAddr
    ensures ReadingReply(h.(input := h.input + x), t + x)
  {
    hide AddressStart, AddressEnd;
    AddressAbsorbs(t, x);
    SuffixAbsorbs(t, AddressStart(t), x);
  }

  lemma ReplyPortAbsorbs(h: Handshake, t: Bytes, x: Bytes)
    requires ReadingReply(h, t) && h.step == ReplyPort
    ensures ReadingReply(h.(input := h.input + x), t + x)
  {
    hide AddressStart, AddressEnd;
    AddressAbsorbs(t, x);
    SuffixAbsorbs(t, AddressEnd(t), x);
    SliceAbsorbs(t, AddressStart(t), AddressEnd(t), x);
  }

  lemma ReplyAbsorbs(h: Handshake, t: Bytes, x: Bytes)
    requires ReadingReply(h, t) && h.step != ReplyAddrLen
    ensures ReadingReply(h.(input := h.input + x), t + x)
  {
    hide AddressKnown, AddressStart, AddressEnd, AddressRead;
    if h.step == ReplyAddr {
      ReplyAddrAbsorbs(h, t, x);
    } else if h.step == ReplyPort {
      ReplyPortAbsorbs(h, t, x);
    }
  }

  lemma AwaitingAbsorbs(w: World, x: Bytes)
    requires ConfigOk(w.h.config) && Awaiting(w)
    ensures Awaiting(Took(w, x)) && Offset(w.got + x) == Offset(w.got)
    ensures (w.got + x)[Offset(w.got)..] == w.got[Offset(w.got)..] + x
  {
    var k := Offset(w.got);
    assert (w.got + x)[..k] == w.got[..k];
  }

  /** A world in which the byte count of a long name has just arrived. */
  ghost predicate LengthRead(w: World)
    requires ConfigOk(w.h.config)
  {
    && Awaiting(w)
    && var h, t := w.h, w.got[Offset(w.got)..];
    && h.step == ReplyAddrLen && |t| == 5 && h.input == [t[4]]
    && t[0] == VERSION && t[3] == DOMAIN && h.reply == t[1] && h.atyp == DOMAIN
  }

  lemma LengthAbsorbs(w: World, x: Bytes)
    requires ConfigOk(w.h.config) && Reading(w) && w.h.step == ReplyAddrLen && |x| == 1
    ensures LengthRead(Took(w, x))
  {
    AwaitingAbsorbs(w, x);
    assert [] + x == [x[0]];
  }

  /** Bytes of the reply that is being read. */
  lemma ReadingAbsorbs(w: World, x: Bytes)
    requires ConfigOk(w.h.config) && Reading(w) && w.h.step != ReplyAddrLen
    ensures Reading(Took(w, x))
  {
    var h := w.h;
    if h.step == AuthReply {
      assert ([VERSION, USERPASS] + h.input) + x == [VERSION, USERPASS] + (h.input + x);
    } else if h.step != MethodReply {
      AwaitingAbsorbs(w, x);
      ReplyAbsorbs(h, w.got[Offset(w.got)..], x);
    }
  }

  // ---- a reply is complete -------------------------------------------------------------------

  lemma ReplyEndShifts(s: Bytes, k: nat)
    requires k <= |s|
    ensures ReplyEnd(s, k).None? <==> ReplyEnd(s[k..], 0).None?
    ensures ReplyEnd(s, k).Some? ==> ReplyEnd(s, k).value == k + ReplyEnd(s[k..], 0).value
  {
  }

  /** While a reply is read, the grammar ends where the reply does. */
  lemma AwaitingEnd(w: World)
    requires ConfigOk(w.h.config) && Awaiting(w)
    ensures var t := w.got[Offset(w.got)..];
            && (End(w.h.config, w.got).None? <==> ReplyEnd(t, 0).None?)
            && (ReplyEnd(t, 0) == Some(|t|) ==> End(w.h.config, w.got) == Some(|w.got|))
            && VerdictOf(w.h.config, w.got) == ReplyVerdict(t)
    ensures SentInOrder(w.h.config, w.got, w.put)
  {
    hide ReplyEnd, ReplyVerdict;
    var k := Offset(w.got);
    var m := w.got[..k];
    assert m <= w.got;
    assert forall i :: 0 <= i < k ==> w.got[i] == m[i];
    ReplyEndShifts(w.got, k);
  }

  lemma MethodKeeps(w: World)
    requires Complete(w.h) && w.h.step == MethodReply && Reading(w)
    ensures Inv(w.(h := ConsumeStep(w.h)))
  {
    ConsumeStepSane(w.h);
    var h, c := w.h, w.h.config;
    if h.input[0] == VERSION && h.input[1] == 0 {
      assert w.got == [VERSION, 0];
      assert Greeting(c) + c.request[..0] == Greeting(c);
    } else if h.input[0] == VERSION && h.input[1] == USERPASS && HasCredentials(c) {
      assert w.got == [VERSION, USERPASS];
      assert Greeting(c) + Auth(c)[..0] == Greeting(c);
    }
  }

  lemma AuthKeeps(w: World)
    requires Complete(w.h) && w.h.step == AuthReply && Reading(w)
    ensures Inv(w.(h := ConsumeStep(w.h)))
  {
    ConsumeStepSane(w.h);
    var h, c := w.h, w.h.config;
    assert [VERSION, USERPASS] <= w.got;
    if h.input[0] == 1 && h.input[1] == 0 {
      assert w.got == [VERSION, USERPASS, 1, 0];
      assert (Greeting(c) + Auth(c)) + c.request[..0] == Greeting(c) + Auth(c);
    }
  }

  lemma HeadKeeps(w: World)
    requires Complete(w.h) && w.h.step == ReplyHead && Reading(w)
    ensures Inv(w.(h := ConsumeStep(w.h)))
  {
    hide SentInOrder, Cleared, Preamble, End, VerdictOf;
    ConsumeStepSane(w.h);
    AwaitingEnd(w);
    var t := w.got[Offset(w.got)..];
    if t[0] == VERSION && (t[3] == IPV4 || t[3] == IPV6) { assert t[4..] == []; }
  }

  lemma LengthKeeps(w: World)
    requires Complete(w.h) && LengthRead(w)
    ensures Inv(w.(h := ConsumeStep(w.h)))
  {
    hide SentInOrder, Cleared, Preamble, End, VerdictOf;
    ConsumeStepSane(w.h);
    AwaitingEnd(w);
    var t := w.got[Offset(w.got)..];
    assert t[5..] == [];
  }

  lemma AddrKeeps(w: World)
    requires Complete(w.h) && w.h.step == ReplyAddr && Reading(w)
    ensures Inv(w.(h := ConsumeStep(w.h)))
  {
    hide SentInOrder, Cleared, Preamble, End, VerdictOf;
    ConsumeStepSane(w.h);
    var t := w.got[Offset(w.got)..];
    var a, b := AddressStart(t), AddressEnd(t);
    assert |t| == b && t[b..] == [] && t[a..b] == t[a..];
  }

  lemma PortRead(h: Handshake, t: Bytes)
    requires ReadingReply(h, t) && h.step == ReplyPort && |h.input| == 2
    ensures AddressKnown(t) && |t| == AddressEnd(t) + 2 && AddressRead(h, t) && h.reply == t[1]
    ensures h.input[0] == t[|t| - 2] && h.input[1] == t[|t| - 1]
  {
    hide AddressEnd, AddressRead;
  }

  lemma PortKeeps(w: World)
    requires Complete(w.h) && w.h.step == ReplyPort && Reading(w)
    ensures Inv(w.(h := ConsumeStep(w.h)))
  {
    hide SentInOrder, Cleared, Preamble, Offset, End, ReplyEnd, VerdictOf, ReplyVerdict, ReadingReply, AddressKnown,
      AddressStart, AddressEnd;
    ConsumeStepSane(w.h);
    AwaitingEnd(w);
    var t := w.got[Offset(w.got)..];
    PortRead(w.h, t);
    ReplyWhole(t);
  }

  lemma ReplyWhole(t: Bytes)
    requires AddressKnown(t)
    ensures |t| == AddressEnd(t) + 2 ==> ReplyEnd(t, 0) == Some(|t|)
                                         && ReplyVerdict(t) == if t[1] == 0 then Granted else Denied(Refused(t[1]))
    ensures |t| < AddressEnd(t) + 2 ==> ReplyEnd(t, 0).None?
  {
  }

  /** A whole reply is in. */
  predicate Complete(h: Handshake) {
    ConfigOk(h.config) && h.sent <= |h.out| && |h.input| == h.need && NeedFits(h)
  }

  lemma StepKeeps(w: World)
    requires Complete(w.h) && (if w.h.step == ReplyAddrLen then LengthRead(w) else Reading(w))
    ensures Inv(w.(h := ConsumeStep(w.h)))
  {
    hide Inv, Reading, LengthRead, ConsumeStep;
    match w.h.step
    case MethodReply => MethodKeeps(w);
    case AuthReply => AuthKeeps(w);
    case ReplyHead => HeadKeeps(w);
    case ReplyAddrLen => LengthKeeps(w);
    case ReplyAddr => AddrKeeps(w);
    case ReplyPort => PortKeeps(w);
  }

  /** What is taken in one go, up to the end of the reply that is being read. */
  lemma TakenKeeps(w: World, x: Bytes)
    requires Inv(w) && w.h.status == NeedRead && 1 <= |x| <= w.h.need - |w.h.input|
    ensures var v := Took(w, x);
            if |v.h.input| == v.h.need then Complete(v.h) && Inv(v.(h := ConsumeStep(v.h))) else Inv(v)
  {
    hide Reading, LengthRead, Writing, Answered, Decided, SentInOrder, ConsumeStep;
    var h, v := w.h, Took(w, x);
    if h.step == ReplyAddrLen {
      LengthNeedsOne(h);
      LengthAbsorbs(w, x);
    } else {
      ReadingAbsorbs(w, x);
    }
    if |v.h.input| == v.h.need { StepKeeps(v); }
  }

  lemma FedInTwo(h: Handshake, data: Bytes)
    requires Sane(h) && h.status == NeedRead && data != []
    ensures var take := Least(|data|, h.need - |h.input|);
            var g := h.(input := h.input + data[..take]);
            && 1 <= take
            && if take < h.need - |h.input| then Feed(h, data) == Fed(g, take)
               else && Complete(g) && Sane(ConsumeStep(g))
                    && var r := Feed(ConsumeStep(g), data[take..]);
                       Feed(h, data) == Fed(r.h, take + r.consumed)
  {
    hide ConsumeStep;
    var take := Least(|data|, h.need - |h.input|);
    var g := h.(input := h.input + data[..take]);
    if take == h.need - |h.input| { ConsumeStepSane(g); }
  }

  lemma NothingFed(h: Handshake, data: Bytes)
    requires Sane(h) && (h.status != NeedRead || data == [])
    ensures Feed(h, data) == Fed(h, 0)
  {
  }

  lemma {:induction false} ReceivedKeeps(w: World, data: Bytes)
    requires Inv(w)
    ensures Inv(Act(w, Received(data)))
    decreases |data|
  {
    hide Reading, Writing, Answered, Decided, SentInOrder, Feed, ConsumeStep;
    if w.h.status != NeedRead || data == [] {
      NothingFed(w.h, data);
      assert w.got + data[..0] == w.got;
    } else {
      FedInTwo(w.h, data);
      var take := Least(|data|, w.h.need - |w.h.input|);
      var x, rest := data[..take], data[take..];
      TakenKeeps(w, x);
      var v := Took(w, x);
      if |v.h.input| == v.h.need {
        var u := v.(h := ConsumeStep(v.h));
        ReceivedKeeps(u, rest);
        var r := Feed(u.h, rest);
        assert data[..take + r.consumed] == x + rest[..r.consumed];
        Assoc(w.got, x, rest[..r.consumed]);
      }
    }
  }

  lemma LengthNeedsOne(h: Handshake)
    requires Sane(h) && h.status == NeedRead && h.step == ReplyAddrLen
    ensures h.need == 1 && h.input == []
  {
  }

  // ---- the theorems -----------------------------------------------------------------------------

  lemma HangupKeeps(w: World)
    requires Inv(w)
    ensures Inv(Act(w, Hangup))
  {
    if w.h.status == NeedWrite || w.h.status == NeedRead { InOrder(w); }
  }

  /** A run: any sequence of partial writes, arrivals and a hang-up. */
  function Run(c: Config, actions: seq<Action>): (w: World)
    requires ConfigOk(c)
    ensures Sane(w.h) && w.h.config == c
  {
    if actions == [] then Begin(c)
    else
      var w := Run(c, actions[..|actions| - 1]);
      ActSane(w, actions[|actions| - 1]);
      Act(w, actions[|actions| - 1])
  }

  lemma {:induction false} RunKeeps(c: Config, actions: seq<Action>)
    requires ConfigOk(c)
    ensures Inv(Run(c, actions))
    decreases |actions|
  {
    hide Inv, Act;
    if actions == [] {
      InvBegins(c);
    } else {
      var init, a := actions[..|actions| - 1], actions[|actions| - 1];
      RunKeeps(c, init);
      var w := Run(c, init);
      match a
      case Sent(n) => SentKeeps(w, n);
      case Received(data) => ReceivedKeeps(w, data);
      case Hangup => HangupKeeps(w);
    }
  }

  lemma InOrder(w: World)
    requires Inv(w)
    ensures SentInOrder(w.h.config, w.got, w.put)
  {
    var h, c := w.h, w.h.config;
    match h.status
    case NeedWrite =>
      if h.step == MethodReply {
        assert w.put == h.out[..h.sent];
      } else if h.step == ReplyHead {
        assert [VERSION, 0] <= w.got || [VERSION, USERPASS, 1, 0] <= w.got;
      }
    case NeedRead => if h.step != MethodReply && h.step != AuthReply { AwaitingEnd(w); }
    case Done => AwaitingEnd(w);
    case Failed =>
  }

  /** Credentials go out only after the proxy picked the method that was offered for
      them, the request only after method 0 or accepted credentials, and each only
      behind all of what precedes it. */
  lemma SendsInOrder(c: Config, actions: seq<Action>)
    requires ConfigOk(c)
    ensures SentInOrder(c, Run(c, actions).got, Run(c, actions).put)
  {
    RunKeeps(c, actions);
    InOrder(Run(c, actions));
  }

  lemma ReplyNotEnded(h: Handshake, t: Bytes, more: Bytes)
    requires ReadingReply(h, t) && NeedFits(h) && |h.input| + |more| < h.need
    ensures ReplyEnd(t + more, 0).None?
  {
    hide ReplyEnd;
    if h.step == ReplyHead || h.step == ReplyAddrLen {
      ReplyShort(t + more);
    } else {
      assert AddressKnown(t + more) && AddressEnd(t + more) == AddressEnd(t);
      ReplyWhole(t + more);
    }
  }

  lemma ReplyShort(t: Bytes)
    requires |t| < 4 || (|t| == 4 && t[0] == VERSION && t[3] == DOMAIN)
    ensures ReplyEnd(t, 0).None?
  {
  }

  lemma NotEnded(w: World, more: Bytes)
    requires Inv(w)
    ensures w.h.status == NeedWrite ==> End(w.h.config, w.got).None?
    ensures w.h.status == NeedRead && |more| < Wanted(w.h) ==> End(w.h.config, w.got + more).None?
  {
    hide ReadingReply, SentInOrder, Answered, Awaiting, Preamble, Message, Before;
    if w.h.status == NeedRead && |more| < Wanted(w.h) && w.h.step != MethodReply && w.h.step != AuthReply {
      AwaitingAbsorbs(w, more);
      AwaitingEnd(Took(w, more));
      ReplyNotEnded(w.h, w.got[Offset(w.got)..], more);
    }
  }

  /** Every byte consumed belongs to the handshake and none behind it is touched: at
      the end exactly the grammar's bytes have been taken whatever follows them, and
      before that the bytes asked for cannot reach past the end. */
  lemma ConsumesExactly(c: Config, actions: seq<Action>, more: Bytes)
    requires ConfigOk(c)
    ensures var w := Run(c, actions);
            match w.h.status
            case NeedWrite => End(c, w.got).None?
            case NeedRead => 1 <= Wanted(w.h) <= 255 && (|more| < Wanted(w.h) ==> End(c, w.got + more).None?)
            case Done => End(c, w.got + more) == Some(|w.got|)
            case Failed => w.h.failure == HungUp || End(c, w.got + more) == Some(|w.got|)
  {
    hide End, Reading, Writing, Answered, SentInOrder;
    var w := Run(c, actions);
    RunKeeps(c, actions);
    WantedInRange(w.h);
    NotEnded(w, more);
    if End(c, w.got).Some? { EndIsStable(c, w.got, more); }
  }

  /** Success means a reply with code 0 that was read in full, with its address or
      name and its port. */
  lemma DoneMeansGranted(c: Config, actions: seq<Action>)
    requires ConfigOk(c) && Run(c, actions).h.status == Done
    ensures Answered(Run(c, actions))
  {
    RunKeeps(c, actions);
  }

  /** What the handshake says of the bytes it has consumed. */
  function Says(h: Handshake): Verdict {
    match h.status
    case Done => Granted
    case Failed => Denied(h.failure)
    case _ => Pending
  }

  lemma InvSays(w: World)
    requires Inv(w) && w.h.failure != HungUp
    ensures VerdictOf(w.h.config, w.got) == Says(w.h)
  {
    hide Reading, Writing, Answered, SentInOrder, VerdictOf, End;
    NotEnded(w, []);
    assert w.got + [] == w.got;
    VerdictEnds(w.h.config, w.got);
    if w.h.status == NeedRead { WantedInRange(w.h); }
  }

  lemma HungUpOnly(w: World, a: Action)
    requires Sane(w.h) && w.h.failure != HungUp && a != Hangup
    ensures Act(w, a).h.failure != HungUp
  {
    hide ConsumeStep;
    if a.Received? { FedHungUp(w.h, a.data); }
  }

  lemma StepHungUp(h: Handshake)
    requires Complete(h) && h.failure != HungUp
    ensures ConsumeStep(h).failure != HungUp
  {
  }

  lemma {:induction false} FedHungUp(h: Handshake, data: Bytes)
    requires Sane(h) && h.failure != HungUp
    ensures Feed(h, data).h.failure != HungUp
    decreases |data|
  {
    hide Feed, ConsumeStep;
    if h.status != NeedRead || data == [] {
      NothingFed(h, data);
    } else {
      FedInTwo(h, data);
      var take := Least(|data|, h.need - |h.input|);
      var g := h.(input := h.input + data[..take]);
      if take == h.need - |h.input| {
        StepHungUp(g);
        FedHungUp(ConsumeStep(g), data[take..]);
      }
    }
  }

  lemma {:induction false} RunHungUp(c: Config, actions: seq<Action>)
    requires ConfigOk(c) && Hangup !in actions
    ensures Run(c, actions).h.failure != HungUp
    decreases |actions|
  {
    hide Act;
    if actions != [] {
      RunHungUp(c, actions[..|actions| - 1]);
      HungUpOnly(Run(c, actions[..|actions| - 1]), actions[|actions| - 1]);
    }
  }

  /** As long as nobody hangs up, the handshake is done exactly when the bytes it has
      consumed hold a complete granted reply, has failed exactly when they hold
      something unacceptable and then for that reason, and goes on exactly when they
      decide nothing yet. */
  lemma StatusIsVerdict(c: Config, actions: seq<Action>)
    requires ConfigOk(c) && Hangup !in actions
    ensures Says(Run(c, actions).h) == VerdictOf(c, Run(c, actions).got)
  {
    hide Inv, VerdictOf, Says;
    RunKeeps(c, actions);
    RunHungUp(c, actions);
    InvSays(Run(c, actions));
  }

  lemma WritingEnds(w: World)
    requires Inv(w) && w.h.status == NeedWrite
    ensures Act(w, Sent(|w.h.out|)).h.status == NeedRead
  {
  }

  lemma FeedingMoves(h: Handshake, s: Bytes)
    requires Sane(h) && h.status == NeedRead && s != []
    ensures Feed(h, s).consumed >= 1
  {
  }

  /** The pump when nobody hangs up: whatever is queued is written, and what has not
      been consumed of `s` is read again. */
  ghost function Pump(w: World, s: Bytes): World
    requires Inv(w)
    decreases |s|, if w.h.status == NeedWrite then 1 else 0
  {
    if w.h.status == NeedWrite then
      SentKeeps(w, |w.h.out|);
      WritingEnds(w);
      Pump(Act(w, Sent(|w.h.out|)), s)
    else if w.h.status == NeedRead && s != [] then
      ReceivedKeeps(w, s);
      FeedingMoves(w.h, s);
      Pump(Act(w, Received(s)), s[Feed(w.h, s).consumed..])
    else w
  }

  lemma {:induction false} PumpDecides(w: World, s: Bytes)
    requires Inv(w) && w.h.failure != HungUp
    ensures Says(Pump(w, s).h) == VerdictOf(w.h.config, w.got + s)
    ensures Pump(w, s).h.status != NeedWrite
    decreases |s|, if w.h.status == NeedWrite then 1 else 0
  {
    hide Reading, Writing, Answered, SentInOrder, Decided, Act, Says, VerdictOf, Feed;
    if w.h.status == NeedWrite {
      SentKeeps(w, |w.h.out|);
      WritingEnds(w);
      PumpWrites(w);
      PumpDecides(Act(w, Sent(|w.h.out|)), s);
    } else if w.h.status == NeedRead && s != [] {
      ReceivedKeeps(w, s);
      PumpReads(w, s);
      var n := Feed(w.h, s).consumed;
      PumpDecides(Act(w, Received(s)), s[n..]);
      assert s[..n] + s[n..] == s;
      Assoc(w.got, s[..n], s[n..]);
    } else {
      PumpRests(w, s);
    }
  }

  lemma PumpWrites(w: World)
    requires Inv(w) && w.h.status == NeedWrite && w.h.failure != HungUp
    ensures var v := Act(w, Sent(|w.h.out|)); v.h.failure != HungUp && v.got == w.got && v.h.config == w.h.config
  {
  }

  lemma PumpReads(w: World, s: Bytes)
    requires Inv(w) && w.h.status == NeedRead && w.h.failure != HungUp && s != []
    ensures var v := Act(w, Received(s));
            && 1 <= Feed(w.h, s).consumed <= |s|
            && v.h.failure != HungUp && v.got == w.got + s[..Feed(w.h, s).consumed] && v.h.config == w.h.config
  {
    hide ConsumeStep;
    FeedingMoves(w.h, s);
    FedHungUp(w.h, s);
  }

  lemma PumpRests(w: World, s: Bytes)
    requires Inv(w) && w.h.failure != HungUp && w.h.status != NeedWrite && (w.h.status != NeedRead || s == [])
    ensures Says(w.h) == VerdictOf(w.h.config, w.got + s)
  {
    hide Inv, VerdictOf;
    InvSays(w);
    if w.h.status == NeedRead {
      assert w.got + s == w.got;
    } else {
      VerdictIsStable(w.h.config, w.got, s);
    }
  }

  /** Everything queued gets written and all of `s` has arrived: the handshake
      succeeds exactly when `s` begins with an exchange that grants the request, fails
      exactly when it begins with one that does not, for that reason, and otherwise
      waits for more. */
  lemma StreamDecides(c: Config, s: Bytes)
    requires ConfigOk(c)
    ensures Inv(Begin(c)) && Says(Pump(Begin(c), s).h) == VerdictOf(c, s)
  {
    InvBegins(c);
    PumpDecides(Begin(c), s);
    assert [] + s == s;
  }

  /** Nothing changes a handshake that is over. */
  lemma OverIsOver(w: World, a: Action)
    requires Sane(w.h) && (w.h.status == Done || w.h.status == Failed)
    ensures Act(w, a) == w
  {
  }
}

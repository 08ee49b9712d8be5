/** The handshake object and the loop that moves it along over a socket, proved
    against the state machine. */
module Socks5Client {
  import opened Prelude
  import opened Octets
  import opened Socks5
  import opened Socks5Protocol

  class Socks5Handshake {
    const config: Config
    var status: Status
    var step: Step
    var out: Bytes
    var sent: nat
    var input: Bytes
    var need: nat
    var atyp: Byte
    var reply: Byte
    var address: Bytes
    var name: Bytes
    var port: nat
    var failure: Failure

    function Model(): Handshake
      reads this
    {
      Handshake(config, status, step, out, sent, input, need, atyp, reply, address, name, port, failure)
    }

    /** Either refused before anything was sent, or a handshake in progress. */
    ghost predicate Valid()
      reads this
    {
      status == Failed || Sane(Model())
    }

    /** Everything that can be refused is refused here, before the proxy is contacted;
        otherwise the greeting is queued. */
    constructor (username: Bytes, password: Bytes, allowPrivate: bool, command: Byte, target: Bytes, port: nat, peer: Peer)
      requires port < 0x1_0000 && PeerOk(peer)
      ensures Valid()
      ensures var why := Refusal(username, password, command, target, peer, allowPrivate);
              if why == NoFailure then
                Model() == Start(Config(username, password, EncodeRequest(command, target, port, peer)))
              else status == Failed && failure == why && out == []
    {
      var why := Refusal(username, password, command, target, peer, allowPrivate);
      var request := if why == NoFailure then EncodeRequest(command, target, port, peer) else [];
      config := Config(username, password, request);
      step, sent, input, need, atyp, reply := MethodReply, 0, [], 0, 0, 0;
      address, name, this.port, failure := [], [], 0, why;
      status := if why == NoFailure then NeedWrite else Failed;
      out := if why == NoFailure then Greeting(Config(username, password, request)) else [];
    }

    method Fail(why: Failure)
      modifies this
      ensures Model() == Socks5.Fail(old(Model()), why)
    {
      status, failure, out, sent, need := Failed, why, [], 0, 0;
    }

    method Expect(next: Step, bytes: nat)
      modifies this
      ensures Model() == Socks5.Expect(old(Model()), next, bytes)
    {
      step, need, input, status := next, bytes, [], NeedRead;
    }

    method Queue(bytes: Bytes, next: Step)
      modifies this
      ensures Model() == Socks5.Queue(old(Model()), bytes, next)
    {
      out, sent, status, step := bytes, 0, NeedWrite, next;
    }

    method ConsumeOutgoing(length: nat)
      requires Valid()
      modifies this
      ensures Valid() && Model() == Socks5.ConsumeOutgoing(old(Model()), length)
    {
      if status != NeedWrite { return; }
      sent := sent + length;
      if sent > |out| { sent := |out|; }
      if sent < |out| { return; }
      match step {
        case MethodReply => Expect(MethodReply, 2);
        case AuthReply => Expect(AuthReply, 2);
        case _ => Expect(ReplyHead, 4);
      }
    }

    function Wanted(): nat
      reads this
    {
      Socks5.Wanted(Model())
    }

    method ConsumeStep()
      requires ConfigOk(config) && |input| == need && NeedFits(Model())
      modifies this
      ensures Model() == Socks5.ConsumeStep(old(Model()))
    {
      match step {
        case MethodReply =>
          if input[0] != VERSION { Fail(NotSocks5); return; }
          if input[1] == 0xFF { Fail(NoMethodAccepted); return; }
          if input[1] == 0 { Queue(config.request, ReplyHead); return; }
          if input[1] == USERPASS && HasCredentials(config) { Queue(Auth(config), AuthReply); return; }
          Fail(MethodNotOffered);
        case AuthReply =>
          if input[0] != 1 { Fail(AuthVersion); return; }
          if input[1] != 0 { Fail(AuthRejected); return; }
          Queue(config.request, ReplyHead);
        case ReplyHead =>
          if input[0] != VERSION { Fail(ReplyVersion); return; }
          reply, atyp := input[1], input[3];
          if atyp == IPV4 { Expect(ReplyAddr, 4); return; }
          if atyp == IPV6 { Expect(ReplyAddr, 16); return; }
          if atyp == DOMAIN { Expect(ReplyAddrLen, 1); return; }
          Fail(UnknownAddressType);
        case ReplyAddrLen =>
          if input[0] == 0 { Fail(EmptyName); return; }
          Expect(ReplyAddr, input[0] as nat);
        case ReplyAddr =>
          if atyp == IPV4 || atyp == IPV6 { address := input; } else { name := input; }
          Expect(ReplyPort, 2);
        case ReplyPort =>
          port := 256 * input[0] as nat + input[1] as nat;
          input, need := [], 0;
          if reply != 0 { Fail(Refused(reply)); return; }
          status := Done;
      }
    }

    /** Take what arrived, as far as the grammar reaches; a handshake that was refused takes
        nothing. */
    method Feed(data: Bytes) returns (consumed: nat)
      requires Valid()
      modifies this
      ensures Valid() && (old(status) == Failed ==> Model() == old(Model()) && consumed == 0)
      ensures old(Sane(Model())) ==>
                Sane(Model()) && Fed(Model(), consumed) == Socks5.Feed(old(Model()), data)
    {
      hide Socks5.ConsumeStep, Socks5.Feed;
      ghost var h := Model();
      consumed := 0;
      if status == Failed {
        if Sane(h) { FeedStops(h, data); }
        return;
      }
      assert data[0..] == data;
      while status == NeedRead && consumed < |data|
        invariant consumed <= |data| && Sane(Model())
        invariant Socks5.Feed(h, data) == Later(Socks5.Feed(Model(), data[consumed..]), consumed)
        decreases |data| - consumed
      {
        ghost var g, rest := Model(), data[consumed..];
        FeedTurn(g, rest);
        var missing := need - |input|;
        var take := if |data| - consumed < missing then |data| - consumed else missing;
        assert rest[..take] == data[consumed..consumed + take] && rest[take..] == data[consumed + take..];
        input := input + data[consumed..consumed + take];
        consumed := consumed + take;
        if |input| < need { return; }
        ConsumeStepSane(Model());
        ConsumeStep();
      }
      FeedStops(Model(), data[consumed..]);
    }

    method Closed()
      requires Valid()
      modifies this
      ensures Valid() && Model() == Socks5.Closed(old(Model()))
    {
      if status == Done || status == Failed { return; }
      Fail(HungUp);
    }
  }

  /** The same, with `n` more bytes consumed before. */
  function Later(r: Fed, n: nat): Fed {
    Fed(r.h, n + r.consumed)
  }

  lemma FeedTurn(h: Handshake, data: Bytes)
    requires Sane(h) && h.status == NeedRead && data != []
    ensures var take := Least(|data|, h.need - |h.input|);
            var g := h.(input := h.input + data[..take]);
            if |g.input| < g.need then Socks5.Feed(h, data) == Fed(g, take)
            else Sane(Socks5.ConsumeStep(g))
                 && Socks5.Feed(h, data) == Later(Socks5.Feed(Socks5.ConsumeStep(g), data[take..]), take)
  {
    hide Socks5.ConsumeStep;
    var take := Least(|data|, h.need - |h.input|);
    var g := h.(input := h.input + data[..take]);
    if |g.input| == g.need { ConsumeStepSane(g); }
  }

  lemma FeedStops(h: Handshake, data: Bytes)
    requires Sane(h) && (h.status != NeedRead || data == [])
    ensures Socks5.Feed(h, data) == Fed(h, 0)
  {
  }

  const MAX_STEP: nat := 256

  /** What the socket answers to a send or a receive. */
  datatype Call = Took(n: nat) | Gave(data: Bytes) | WouldBlock | Broken

  /** Move the handshake along as far as the socket lets it.  The bytes asked for are
      always between 1 and 255, and what was sent and consumed so far stays in order,
      whatever the socket answers.  A handshake that was refused is left alone. */
  method Pump(h: Socks5Handshake, calls: seq<Call>, ghost w: World)
    returns (wantWrite: bool, broken: bool, ghost w': World)
    requires w.h == h.Model() && (Inv(w) || h.status == Failed)
    modifies h
    ensures w'.h == h.Model() && (Inv(w) ==> Inv(w'))
    ensures old(h.status) == Failed ==> w' == w && !wantWrite && !broken
    ensures w.got <= w'.got && w.put <= w'.put
  {
    hide Inv, Act;
    wantWrite, broken, w' := false, false, w;
    var i := 0;
    while i < |calls|
      invariant i <= |calls| && w'.h == h.Model() && w.got <= w'.got && w.put <= w'.put
      invariant if Inv(w) then Inv(w') else h.status == Failed
      invariant old(h.status) == Failed ==> w' == w && !wantWrite && !broken
    {
      if h.status != Failed { InvSane(w'); }
      var call := calls[i];
      i := i + 1;
      if h.status == NeedWrite {
        if call.Broken? { broken := true; return; }
        if !call.Took? { wantWrite := true; return; }
        SentKeeps(w', call.n);
        ActGrows(w', Sent(call.n));
        h.ConsumeOutgoing(call.n);
        w' := Act(w', Sent(call.n));
        if h.status == NeedWrite { wantWrite := true; return; }
      } else if h.status == NeedRead {
        var want := h.Wanted();
        WantedInRange(h.Model());
        if want == 0 || want > MAX_STEP { assert false; }
        if call.Broken? { broken := true; return; }
        if !call.Gave? { return; }
        if call.data == [] {
          HangupKeeps(w');
          ActGrows(w', Hangup);
          h.Closed();
          w' := Act(w', Hangup);
          return;
        }
        var got := call.data[..Least(|call.data|, want)];
        ReceivedKeeps(w', got);
        ActGrows(w', Received(got));
        var consumed := h.Feed(got);
        w' := Act(w', Received(got));
      } else {
        return;
      }
    }
  }

  lemma InvSane(w: World)
    requires Inv(w)
    ensures Sane(w.h)
  {
  }

  lemma ActGrows(w: World, a: Action)
    requires Sane(w.h)
    ensures w.got <= Act(w, a).got && w.put <= Act(w, a).put
    ensures a.Sent? ==> Act(w, a).h == Socks5.ConsumeOutgoing(w.h, a.n)
    ensures a.Received? ==> Act(w, a).h == Socks5.Feed(w.h, a.data).h
    ensures a.Hangup? ==> Act(w, a).h == Socks5.Closed(w.h)
  {
  }
}

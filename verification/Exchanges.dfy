/**
 * What a session writes and publishes and what ends it, for every run and every mix of providers.
 * Codes, versions and decoders are spelled out packet by packet, apart from the handlers.
 */
module Exchanges {
  import opened Common
  import opened Hello
  import opened Session

  // ----- What calls for a packet -----

  /** A Hello with a p2p version of at least 5 that offers eth in a version from 68 to 70. */
  predicate Acceptable(h: HelloMessage) {
    h.version >= 5 && exists cap <- h.caps :: cap.name == "eth" && 68 <= cap.version <= 70
  }

  lemma AcceptableExactly(h: HelloMessage)
    ensures Validation(h) == None <==> Acceptable(h)
  {
    CapabilityLoopsAgree(h);
    assert forall cap <- h.caps :: Supported(cap) <==> cap.name == "eth" && 68 <= cap.version <= 70;
  }

  /** The data spell a Status in the form of the version in force. */
  predicate Spells(codec: Codec, version: nat, data: Data, status: Status) {
    match status
    case Status68(body) => version == 68 && codec.status68(data) == Some(body)
    case Status69(body) => (version == 69 || version == 70) && codec.status69(data) == Some(body)
    case ForeignStatus => false
  }

  predicate SpellsSome(codec: Codec, version: nat, data: Data) {
    || (version == 68 && codec.status68(data).Some?)
    || ((version == 69 || version == 70) && codec.status69(data).Some?)
  }

  predicate Asks(request: Option<Request>, id: nat) {
    request.Some? && request.value.id == id
  }

  /** The Status to send: the provider's, or what was received when the provider has none of its own. */
  predicate Answering(cfg: Providers, codec: Codec, version: nat, m: Input, status: Status)
    requires m.Message?
  {
    && SpellsSome(codec, version, m.data)
    && (if !cfg.status || m.status == Offers(None) then Spells(codec, version, m.data, status)
        else m.status == Offers(Some(status)))
  }

  /** When a message calls for a packet, and under which version it is to be written. */
  predicate CallsFor(cfg: Providers, codec: Codec, s: SessionState, m: Input, packet: Packet, version: nat)
    requires m.Message?
  {
    match packet
    case HelloPacket => false
    case StatusPacket(status) =>
      && !s.statusSent && !status.ForeignStatus?
      && (|| (m.code == 0x00 && codec.hello(m.data).Some? && Acceptable(codec.hello(m.data).value)
              && version == NegotiatedVersion(codec.hello(m.data).value.caps)
              && cfg.status && m.status == Offers(Some(status)))
          || (m.code == 0x10 && version == s.version && Answering(cfg, codec, version, m, status)))
    case PongPacket => m.code == 0x02 && version == s.version
    case HeadersPacket(id, items) =>
      && m.code == 0x13 && version == s.version && Asks(codec.headers(m.data), id)
      && items == if cfg.headers && m.items.Items? then m.items.items else []
    case BodiesPacket(id, items) =>
      && m.code == 0x15 && version == s.version && Asks(codec.bodies(m.data), id)
      && (if cfg.bodies then m.items == Items(items) else items == [])
    case PooledPacket(id) => m.code == 0x19 && version == s.version && Asks(codec.pooled(m.data), id)
    case Receipts69Packet(id, items) =>
      && m.code == 0x1f && version == s.version != 70 && Asks(codec.receipts69(m.data), id)
      && (if cfg.receipts then m.items == Items(items) else items == [])
    case Receipts70Packet(id, items) =>
      && m.code == 0x1f && version == s.version == 70 && Asks(codec.receipts70(m.data), id)
      && (if cfg.receipts then m.items == Items(items) else items == [])
  }

  /** The handler's packet is one the message calls for, and it writes one whenever it can. */
  ghost predicate WritesWhatIsCalledFor(cfg: Providers, codec: Codec, s: SessionState, m: Input)
    requires m.Message?
  {
    var e := SentBy(cfg, codec, s, m);
    forall packet, version ::
      e == Some(Sent(packet, version)) <==> m.delivered && CallsFor(cfg, codec, s, m, packet, version)
  }

  lemma HelloCalls(cfg: Providers, codec: Codec, s: SessionState, m: Input)
    requires m.Message? && m.code == HELLO
    ensures WritesWhatIsCalledFor(cfg, codec, s, m)
  {
    if codec.hello(m.data).Some? {
      AcceptableExactly(codec.hello(m.data).value);
    }
  }

  lemma ReceivedSpells(codec: Codec, version: nat, data: Data, status: Status)
    ensures Spells(codec, version, data, status) <==> ReceiveStatus(codec, version, data) == Some(status)
  {
  }

  lemma StatusCalls(cfg: Providers, codec: Codec, s: SessionState, m: Input)
    requires m.Message? && m.code == STATUS
    ensures WritesWhatIsCalledFor(cfg, codec, s, m)
  {
    forall status
      ensures Spells(codec, s.version, m.data, status) <==> ReceiveStatus(codec, s.version, m.data) == Some(status)
    {
      ReceivedSpells(codec, s.version, m.data, status);
    }
  }

  lemma ListCalls(cfg: Providers, codec: Codec, s: SessionState, m: Input)
    requires m.Message? && (m.code == GET_BLOCK_HEADERS || m.code == GET_BLOCK_BODIES)
    ensures WritesWhatIsCalledFor(cfg, codec, s, m)
  {
  }

  lemma ReceiptsCalls(cfg: Providers, codec: Codec, s: SessionState, m: Input)
    requires m.Message? && m.code == GET_RECEIPTS && s.version <= 70
    ensures WritesWhatIsCalledFor(cfg, codec, s, m)
  {
  }

  lemma HandlerCalls(cfg: Providers, codec: Codec, s: SessionState, m: Input)
    requires m.Message? && s.version <= 70
    ensures WritesWhatIsCalledFor(cfg, codec, s, m)
  {
    if m.code == HELLO {
      HelloCalls(cfg, codec, s, m);
    } else if m.code == STATUS {
      StatusCalls(cfg, codec, s, m);
    } else if m.code == GET_BLOCK_HEADERS || m.code == GET_BLOCK_BODIES {
      ListCalls(cfg, codec, s, m);
    } else if m.code == GET_RECEIPTS {
      ReceiptsCalls(cfg, codec, s, m);
    }
  }

  /** A turn writes a packet exactly when the session is open and the message calls for it and it can be written. */
  predicate Due(cfg: Providers, codec: Codec, s: SessionState, input: Input, e: Sent) {
    s.open && input.Message? && input.delivered && CallsFor(cfg, codec, s, input, e.packet, e.version)
  }

  lemma TurnWrites(cfg: Providers, codec: Codec, s: SessionState, input: Input, e: Sent)
    requires s.version <= 70
    ensures var written := Turn(cfg, codec, s, input).written;
            && Grows(s.written, written)
            && (Newest(s.written, written) == Some(e) <==> Due(cfg, codec, s, input, e))
  {
    if s.open && input.Message? && input.code != DISCONNECT {
      HandleGrows(cfg, codec, s, input);
      HandlerCalls(cfg, codec, s, input);
    }
  }

  /** A packet was due at some turn of a run. */
  predicate EverDue(cfg: Providers, codec: Codec, delivered: bool, inputs: seq<Input>, e: Sent) {
    inputs != [] &&
      var front := inputs[..|inputs| - 1];
      || EverDue(cfg, codec, delivered, front, e)
      || Due(cfg, codec, Run(cfg, codec, delivered, front), inputs[|inputs| - 1], e)
  }

  lemma GrowsBy<T>(before: seq<T>, after: seq<T>, x: T)
    requires Grows(before, after)
    ensures x in after <==> x in before || Newest(before, after) == Some(x)
  {
  }

  /**
   * Everything written is called for, and everything called for is written: besides our Hello a
   * packet is written in a run exactly when, in some open state of it, a message called for it and
   * it could be delivered.
   */
  lemma {:induction false} WrittenExactly(cfg: Providers, codec: Codec, delivered: bool, inputs: seq<Input>, e: Sent)
    ensures e in Run(cfg, codec, delivered, inputs).written <==>
            (delivered && e == Sent(HelloPacket, 0)) || EverDue(cfg, codec, delivered, inputs, e)
  {
    if inputs != [] {
      var front, input := inputs[..|inputs| - 1], inputs[|inputs| - 1];
      var s := Run(cfg, codec, delivered, front);
      WrittenExactly(cfg, codec, delivered, front, e);
      StatusSafety(cfg, codec, delivered, front);
      TurnWrites(cfg, codec, s, input, e);
      GrowsBy(s.written, Run(cfg, codec, delivered, inputs).written, e);
    }
  }

  /** A receipts request of this form and id. */
  predicate Requests(codec: Codec, input: Input, packet: Packet) {
    && input.Message? && input.code == 0x1f
    && match packet
       case Receipts69Packet(id, _) => Asks(codec.receipts69(input.data), id)
       case Receipts70Packet(id, _) => Asks(codec.receipts70(input.data), id)
       case _ => false
  }

  lemma {:induction false} DueIsRequested(cfg: Providers, codec: Codec, delivered: bool, inputs: seq<Input>, e: Sent)
    requires EverDue(cfg, codec, delivered, inputs, e) && (e.packet.Receipts69Packet? || e.packet.Receipts70Packet?)
    ensures exists input <- inputs :: Requests(codec, input, e.packet)
    ensures e.packet.Receipts70Packet? <==> e.version == 70
  {
    var front, input := inputs[..|inputs| - 1], inputs[|inputs| - 1];
    assert inputs == front + [input];
    if EverDue(cfg, codec, delivered, front, e) {
      DueIsRequested(cfg, codec, delivered, front, e);
    } else {
      assert Requests(codec, input, e.packet);
    }
  }

  /**
   * Receipts over whole runs: an eth/70 reply is written only under version 70 and only to a request
   * that the eth/70 decoder reads with its id, an older reply only under another version and to a
   * request that the older decoder reads.
   */
  lemma ReceiptsAnswerRequests(cfg: Providers, codec: Codec, delivered: bool, inputs: seq<Input>, e: Sent)
    requires e in Run(cfg, codec, delivered, inputs).written
    requires e.packet.Receipts69Packet? || e.packet.Receipts70Packet?
    ensures exists input <- inputs :: Requests(codec, input, e.packet)
    ensures e.packet.Receipts70Packet? <==> e.version == 70
  {
    WrittenExactly(cfg, codec, delivered, inputs, e);
    DueIsRequested(cfg, codec, delivered, inputs, e);
  }

  /** And every request that can be answered is: with the provider's items, in the form it was asked in. */
  lemma ReceiptsAreAnswered(cfg: Providers, codec: Codec, delivered: bool, inputs: seq<Input>, s: SessionState,
      input: Input, packet: Packet)
    requires s == Run(cfg, codec, delivered, inputs) && s.open
    requires Requests(codec, input, packet) && input.delivered && !(cfg.receipts && input.items.ItemsFail?)
    requires packet.Receipts70Packet? <==> s.version == 70
    requires packet.items == if cfg.receipts then input.items.items else []
    ensures Turn(cfg, codec, s, input).written == s.written + [Sent(packet, s.version)]
  {
    StatusSafety(cfg, codec, delivered, inputs);
    TurnWrites(cfg, codec, s, input, Sent(packet, s.version));
  }

  // ----- What is announced -----

  /** When a message calls for an announcement to subscribers. */
  predicate Announces(cfg: Providers, codec: Codec, s: SessionState, m: Input, event: Published)
    requires m.Message?
  {
    match event
    case HelloEvent(hello) => m.code == 0x00 && codec.hello(m.data) == Some(hello) && Acceptable(hello)
    case StatusEvent(status) =>
      m.code == 0x10 && Spells(codec, s.version, m.data, status) && !(cfg.status && m.status.StatusFails?)
    case DataEvent(code, data) =>
      (m.code == 0x12 || m.code == 0x18) && (code, data) == (m.code, m.data) && codec.plain(code, data)
    case DisconnectEvent(None) => false
    case DisconnectEvent(Some(reason)) => m.code == 0x01 && reason == codec.reason(m.data)
  }

  /** All but the announcement that a session has failed, which `Session.EndIsAnnounced` counts. */
  predicate Announced(cfg: Providers, codec: Codec, s: SessionState, input: Input, event: Published) {
    s.open && input.Message? && Announces(cfg, codec, s, input, event)
  }

  lemma HelloAnnounces(cfg: Providers, codec: Codec, s: SessionState, m: Input, event: Published)
    requires m.Message? && m.code == HELLO && event != DisconnectEvent(None)
    ensures var published := Handle(cfg, codec, s, m).s.published;
            Newest(s.published, published) == Some(event) <==> Announces(cfg, codec, s, m, event)
  {
    if codec.hello(m.data).Some? {
      AcceptableExactly(codec.hello(m.data).value);
    }
  }

  lemma StatusAnnounces(cfg: Providers, codec: Codec, s: SessionState, m: Input, event: Published)
    requires m.Message? && m.code == STATUS && event != DisconnectEvent(None)
    ensures var published := Handle(cfg, codec, s, m).s.published;
            Newest(s.published, published) == Some(event) <==> Announces(cfg, codec, s, m, event)
  {
    if event.StatusEvent? {
      ReceivedSpells(codec, s.version, m.data, event.status);
    }
  }

  /** Requests are answered, not announced. */
  lemma RequestsAnnounceNothing(cfg: Providers, codec: Codec, s: SessionState, m: Input, event: Published)
    requires m.Message? && m.code in {GET_BLOCK_HEADERS, GET_BLOCK_BODIES, GET_POOLED_TRANSACTIONS, GET_RECEIPTS}
    requires event != DisconnectEvent(None)
    ensures Newest(s.published, Handle(cfg, codec, s, m).s.published) != Some(event)
  {
  }

  lemma OthersAnnounce(cfg: Providers, codec: Codec, s: SessionState, m: Input, event: Published)
    requires m.Message? && m.code != HELLO && m.code != STATUS && m.code != DISCONNECT
    requires event != DisconnectEvent(None)
    ensures var published := Handle(cfg, codec, s, m).s.published;
            Newest(s.published, published) == Some(event) <==> Announces(cfg, codec, s, m, event)
  {
    if m.code in {GET_BLOCK_HEADERS, GET_BLOCK_BODIES, GET_POOLED_TRANSACTIONS, GET_RECEIPTS} {
      RequestsAnnounceNothing(cfg, codec, s, m, event);
    }
  }

  lemma HandlerAnnounces(cfg: Providers, codec: Codec, s: SessionState, m: Input, event: Published)
    requires m.Message? && m.code != DISCONNECT && event != DisconnectEvent(None)
    ensures var published := Handle(cfg, codec, s, m).s.published;
            && Grows(s.published, published)
            && (event in published <==> event in s.published || Announces(cfg, codec, s, m, event))
  {
    HandleGrows(cfg, codec, s, m);
    if m.code == HELLO {
      HelloAnnounces(cfg, codec, s, m, event);
    } else if m.code == STATUS {
      StatusAnnounces(cfg, codec, s, m, event);
    } else {
      OthersAnnounce(cfg, codec, s, m, event);
    }
    GrowsBy(s.published, Handle(cfg, codec, s, m).s.published, event);
  }

  lemma TurnAnnounces(cfg: Providers, codec: Codec, s: SessionState, input: Input, event: Published)
    requires event != DisconnectEvent(None)
    ensures event in Turn(cfg, codec, s, input).published <==>
            event in s.published || Announced(cfg, codec, s, input, event)
  {
    if s.open && input.Message? && input.code != DISCONNECT {
      HandlerAnnounces(cfg, codec, s, input, event);
    }
  }

  predicate EverAnnounced(cfg: Providers, codec: Codec, delivered: bool, inputs: seq<Input>, event: Published) {
    inputs != [] &&
      var front := inputs[..|inputs| - 1];
      || EverAnnounced(cfg, codec, delivered, front, event)
      || Announced(cfg, codec, Run(cfg, codec, delivered, front), inputs[|inputs| - 1], event)
  }

  /**
   * Subscribers hear of exactly the accepted Hellos, the readable Statuses the provider does not fail
   * on, the readable transaction and hash messages, and the peer's reason for disconnecting, each
   * with the contents received.
   */
  lemma {:induction false} PublishedExactly(cfg: Providers, codec: Codec, delivered: bool, inputs: seq<Input>,
                                            event: Published)
    requires event != DisconnectEvent(None)
    ensures event in Run(cfg, codec, delivered, inputs).published <==>
            EverAnnounced(cfg, codec, delivered, inputs, event)
  {
    if inputs != [] {
      var front, input := inputs[..|inputs| - 1], inputs[|inputs| - 1];
      PublishedExactly(cfg, codec, delivered, front, event);
      TurnAnnounces(cfg, codec, Run(cfg, codec, delivered, front), input, event);
    }
  }

  // ----- What ends a session -----

  /** The message can be read by the decoder its code and the version in force ask for. */
  predicate Readable(codec: Codec, version: nat, m: Input)
    requires m.Message?
  {
    match m.code
    case 0x00 => codec.hello(m.data).Some? && Acceptable(codec.hello(m.data).value)
    case 0x10 => SpellsSome(codec, version, m.data)
    case 0x13 => codec.headers(m.data).Some?
    case 0x15 => codec.bodies(m.data).Some?
    case 0x19 => codec.pooled(m.data).Some?
    case 0x1f => if version == 70 then codec.receipts70(m.data).Some? else codec.receipts69(m.data).Some?
    case _ => m.code in {0x12, 0x14, 0x18, 0x1a, 0x21} ==> codec.plain(m.code, m.data)
  }

  /** A provider that the message needs fails; the one for headers may. */
  predicate ProviderFails(cfg: Providers, s: SessionState, m: Input)
    requires m.Message?
  {
    || (m.code == 0x00 && cfg.status && !s.statusSent && m.status.StatusFails?)
    || (m.code == 0x10 && cfg.status && m.status.StatusFails?)
    || (m.code == 0x15 && cfg.bodies && m.items.ItemsFail?)
    || (m.code == 0x1f && cfg.receipts && m.items.ItemsFail?)
  }

  /** The provider hands over a Status that cannot be written. */
  predicate ForeignOffered(cfg: Providers, s: SessionState, m: Input)
    requires m.Message?
  {
    (m.code == 0x00 || m.code == 0x10) && cfg.status && !s.statusSent && m.status == Offers(Some(ForeignStatus))
  }

  /** A packet is due and cannot be delivered. */
  ghost predicate Undeliverable(cfg: Providers, codec: Codec, s: SessionState, m: Input)
    requires m.Message?
  {
    !m.delivered && exists packet, version :: CallsFor(cfg, codec, s, m, packet, version)
  }

  /** Nothing is wrong with the message, what the providers answer and the packet it calls for. */
  ghost predicate GoesWell(cfg: Providers, codec: Codec, s: SessionState, m: Input)
    requires m.Message?
  {
    && Readable(codec, s.version, m) && !ProviderFails(cfg, s, m) && !ForeignOffered(cfg, s, m)
    && !Undeliverable(cfg, codec, s, m)
  }

  /** What the handler would write if it could, and whether it goes on if it can. */
  lemma UndeliverableExactly(cfg: Providers, codec: Codec, s: SessionState, m: Input)
    requires m.Message? && s.version <= 70
    ensures Undeliverable(cfg, codec, s, m) <==> !m.delivered && SentBy(cfg, codec, s, m.(delivered := true)).Some?
  {
    var m' := m.(delivered := true);
    HandlerCalls(cfg, codec, s, m');
    var e := SentBy(cfg, codec, s, m');
    if e.Some? {
      assert e == Some(Sent(e.value.packet, e.value.version));
      assert CallsFor(cfg, codec, s, m', e.value.packet, e.value.version);
      assert CallsFor(cfg, codec, s, m, e.value.packet, e.value.version);
    }
    forall packet, version | CallsFor(cfg, codec, s, m, packet, version) ensures e.Some? {
      assert CallsFor(cfg, codec, s, m', packet, version);
    }
  }

  lemma HelloGoesOn(cfg: Providers, codec: Codec, s: SessionState, m: Input)
    requires m.Message? && m.code == HELLO
    ensures Handle(cfg, codec, s, m).ok <==>
            && Readable(codec, s.version, m) && !ProviderFails(cfg, s, m) && !ForeignOffered(cfg, s, m)
            && (m.delivered || SentBy(cfg, codec, s, m.(delivered := true)).None?)
  {
    if codec.hello(m.data).Some? {
      AcceptableExactly(codec.hello(m.data).value);
    }
  }

  lemma StatusGoesOn(cfg: Providers, codec: Codec, s: SessionState, m: Input)
    requires m.Message? && m.code == STATUS
    ensures Handle(cfg, codec, s, m).ok <==>
            && Readable(codec, s.version, m) && !ProviderFails(cfg, s, m) && !ForeignOffered(cfg, s, m)
            && (m.delivered || SentBy(cfg, codec, s, m.(delivered := true)).None?)
  {
  }

  lemma OthersGoOn(cfg: Providers, codec: Codec, s: SessionState, m: Input)
    requires m.Message? && m.code != HELLO && m.code != STATUS && m.code != DISCONNECT
    ensures Handle(cfg, codec, s, m).ok <==>
            && Readable(codec, s.version, m) && !ProviderFails(cfg, s, m) && !ForeignOffered(cfg, s, m)
            && (m.delivered || SentBy(cfg, codec, s, m.(delivered := true)).None?)
  {
  }

  /**
   * A session goes on after a turn exactly when the turn read a message other than a Disconnect that
   * is readable, no provider it needs failed or offered a foreign Status, and the packet it called
   * for, if any, could be delivered. Unknown messages are passed over.
   */
  lemma GoesOnExactly(cfg: Providers, codec: Codec, delivered: bool, inputs: seq<Input>, s: SessionState, input: Input)
    requires s == Run(cfg, codec, delivered, inputs)
    ensures Turn(cfg, codec, s, input).open <==>
            s.open && input.Message? && input.code != 0x01 && GoesWell(cfg, codec, s, input)
  {
    if s.open && input.Message? && input.code != DISCONNECT {
      StatusSafety(cfg, codec, delivered, inputs);
      HandlersStayOpen(cfg, codec, s, input);
      UndeliverableExactly(cfg, codec, s, input);
      if input.code == HELLO {
        HelloGoesOn(cfg, codec, s, input);
      } else if input.code == STATUS {
        StatusGoesOn(cfg, codec, s, input);
      } else {
        OthersGoOn(cfg, codec, s, input);
      }
    }
  }
}

/**
 * The execution-layer session: what the receive loop does with one message, and what holds of
 * every run, for every sequence of messages, provider answers and write failures.
 */
module Session {
  import opened Common
  import opened Hello

  // ----- Message codes: the eth protocol starts at the RLPx offset -----

  const RLPX_OFFSET := 0x10
  const HELLO := 0x00
  const DISCONNECT := 0x01
  const PING := 0x02
  const PONG := 0x03
  const STATUS := RLPX_OFFSET + 0x00
  const TRANSACTIONS := RLPX_OFFSET + 0x02
  const GET_BLOCK_HEADERS := RLPX_OFFSET + 0x03
  const BLOCK_HEADERS := RLPX_OFFSET + 0x04
  const GET_BLOCK_BODIES := RLPX_OFFSET + 0x05
  const BLOCK_BODIES := RLPX_OFFSET + 0x06
  const NEW_POOLED_TRANSACTION_HASHES := RLPX_OFFSET + 0x08
  const GET_POOLED_TRANSACTIONS := RLPX_OFFSET + 0x09
  const POOLED_TRANSACTIONS := RLPX_OFFSET + 0x0a
  const GET_RECEIPTS := RLPX_OFFSET + 0x0f
  const RECEIPTS := RLPX_OFFSET + 0x10
  const BLOCK_RANGE_UPDATE := RLPX_OFFSET + 0x11

  type Data = seq<Byte>
  type Item = nat

  datatype Status = Status68(body: Data) | Status69(body: Data) | ForeignStatus

  datatype Request = Request(id: nat, query: Data)

  /** The RLP decoders of the messages the loop understands; `plain` covers those it only checks. */
  datatype Codec = Codec(
    hello: Data -> Option<HelloMessage>,
    status68: Data -> Option<Data>,
    status69: Data -> Option<Data>,
    headers: Data -> Option<Request>,
    bodies: Data -> Option<Request>,
    pooled: Data -> Option<Request>,
    receipts69: Data -> Option<Request>,
    receipts70: Data -> Option<Request>,
    plain: (nat, Data) -> bool,
    reason: Data -> nat)

  datatype Providers = Providers(status: bool, headers: bool, bodies: bool, receipts: bool)

  datatype StatusAnswer = StatusFails | Offers(status: Option<Status>)
  datatype ItemsAnswer = ItemsFail | Items(items: seq<Item>)

  /**
   * One turn of the loop: a failed read, or a message with what the providers would answer and
   * whether a packet written in return can be encoded and delivered.
   */
  datatype Input =
    | ReadFails
    | Message(code: nat, data: Data, status: StatusAnswer, items: ItemsAnswer, delivered: bool)

  datatype Packet =
    | HelloPacket
    | PongPacket
    | StatusPacket(status: Status)
    | HeadersPacket(id: nat, items: seq<Item>)
    | BodiesPacket(id: nat, items: seq<Item>)
    | PooledPacket(id: nat)
    | Receipts69Packet(id: nat, items: seq<Item>)
    | Receipts70Packet(id: nat, items: seq<Item>)

  /** A packet on the wire, with the eth version in force when it was written. */
  datatype Sent = Sent(packet: Packet, version: nat)

  datatype Published =
    | DisconnectEvent(reason: Option<nat>)
    | HelloEvent(hello: HelloMessage)
    | StatusEvent(status: Status)
    | DataEvent(code: nat, data: Data)

  datatype SessionState = SessionState(
    version: nat, statusSent: bool, snappy: bool, written: seq<Sent>, published: seq<Published>, open: bool)
  {
    function Publish(e: Published): SessionState {
      this.(published := published + [e])
    }
  }

  /** What a handler leaves behind, and whether the loop goes on. */
  datatype Handled = Handled(s: SessionState, ok: bool)

  function Write(s: SessionState, packet: Packet, delivered: bool): Handled {
    if delivered then Handled(s.(written := s.written + [Sent(packet, s.version)]), true) else Handled(s, false)
  }

  function SendStatus(s: SessionState, status: Status, delivered: bool): Handled {
    if status.ForeignStatus? then Handled(s, false)
    else
      var r := Write(s, StatusPacket(status), delivered);
      if r.ok then Handled(r.s.(statusSent := true), true) else r
  }

  function HandleHello(cfg: Providers, codec: Codec, s: SessionState, m: Input): Handled
    requires m.Message?
  {
    var hello := codec.hello(m.data);
    if hello.None? || Validation(hello.value).Some? then Handled(s, false)
    else
      var accepted := s.(version := NegotiatedVersion(hello.value.caps), snappy := true)
                       .Publish(HelloEvent(hello.value));
      if !cfg.status || s.statusSent then Handled(accepted, true)
      else if m.status.StatusFails? then Handled(accepted, false)
      else if m.status.status.None? then Handled(accepted, true)
      else SendStatus(accepted, m.status.status.value, m.delivered)
  }

  /** Decodes a Status in the form of the negotiated version; other versions have no form. */
  function ReceiveStatus(codec: Codec, version: nat, data: Data): Option<Status> {
    if version == 68 then
      match codec.status68(data) case None => None case Some(body) => Some(Status68(body))
    else if version == 69 || version == 70 then
      match codec.status69(data) case None => None case Some(body) => Some(Status69(body))
    else None
  }

  function HandleStatus(cfg: Providers, codec: Codec, s: SessionState, m: Input): Handled
    requires m.Message?
  {
    var received := ReceiveStatus(codec, s.version, m.data);
    if received.None? || (cfg.status && m.status.StatusFails?) then Handled(s, false)
    else
      var response := if cfg.status && m.status.status.Some? then m.status.status.value else received.value;
      var seen := s.Publish(StatusEvent(received.value));
      if s.statusSent then Handled(seen, true) else SendStatus(seen, response, m.delivered)
  }

  function HandleGetBlockHeaders(cfg: Providers, codec: Codec, s: SessionState, m: Input): Handled
    requires m.Message?
  {
    match codec.headers(m.data)
    case None => Handled(s, false)
    case Some(r) =>
      var items := if cfg.headers && m.items.Items? then m.items.items else [];
      Write(s, HeadersPacket(r.id, items), m.delivered)
  }

  function HandleGetBlockBodies(cfg: Providers, codec: Codec, s: SessionState, m: Input): Handled
    requires m.Message?
  {
    match codec.bodies(m.data)
    case None => Handled(s, false)
    case Some(r) =>
      if cfg.bodies && m.items.ItemsFail? then Handled(s, false)
      else Write(s, BodiesPacket(r.id, if cfg.bodies then m.items.items else []), m.delivered)
  }

  function HandleGetPooledTransactions(codec: Codec, s: SessionState, m: Input): Handled
    requires m.Message?
  {
    match codec.pooled(m.data)
    case None => Handled(s, false)
    case Some(r) => Write(s, PooledPacket(r.id), m.delivered)
  }

  /** The request is decoded by one test on the version... */
  function ReceiveGetReceipts(codec: Codec, version: nat, data: Data): Option<Request> {
    if version == 70 then codec.receipts70(data) else codec.receipts69(data)
  }

  /** ...and the reply's form is chosen by another. */
  function ReceiptsFor(version: nat, id: nat, items: seq<Item>): Packet {
    if version >= 70 then Receipts70Packet(id, items) else Receipts69Packet(id, items)
  }

  function HandleGetReceipts(cfg: Providers, codec: Codec, s: SessionState, m: Input): Handled
    requires m.Message?
  {
    match ReceiveGetReceipts(codec, s.version, m.data)
    case None => Handled(s, false)
    case Some(r) =>
      if cfg.receipts && m.items.ItemsFail? then Handled(s, false)
      else
        var sent := Write(s, ReceiptsFor(s.version, r.id, if cfg.receipts then m.items.items else []), m.delivered);
        if sent.ok then sent else Handled(sent.s.Publish(DisconnectEvent(None)), false)
  }

  function HandlePlain(codec: Codec, s: SessionState, m: Input): Handled
    requires m.Message?
  {
    if !codec.plain(m.code, m.data) then Handled(s, false)
    else if m.code == TRANSACTIONS || m.code == NEW_POOLED_TRANSACTION_HASHES then
      Handled(s.Publish(DataEvent(m.code, m.data)), true)
    else Handled(s, true)
  }

  predicate IsPlain(code: nat) {
    || code == TRANSACTIONS || code == BLOCK_HEADERS || code == NEW_POOLED_TRANSACTION_HASHES
    || code == POOLED_TRANSACTIONS || code == BLOCK_RANGE_UPDATE
  }

  /** The loop's switch; a Disconnect is dealt with by the loop itself. */
  function Handle(cfg: Providers, codec: Codec, s: SessionState, m: Input): Handled
    requires m.Message?
  {
    if m.code == HELLO then HandleHello(cfg, codec, s, m)
    else if m.code == PING then Write(s, PongPacket, m.delivered)
    else if m.code == STATUS then HandleStatus(cfg, codec, s, m)
    else if m.code == GET_BLOCK_HEADERS then HandleGetBlockHeaders(cfg, codec, s, m)
    else if m.code == GET_BLOCK_BODIES then HandleGetBlockBodies(cfg, codec, s, m)
    else if m.code == GET_POOLED_TRANSACTIONS then HandleGetPooledTransactions(codec, s, m)
    else if m.code == GET_RECEIPTS then HandleGetReceipts(cfg, codec, s, m)
    else if IsPlain(m.code) then HandlePlain(codec, s, m)
    else Handled(s, true)
  }

  function Close(s: SessionState, reason: Option<nat>): SessionState {
    s.Publish(DisconnectEvent(reason)).(open := false)
  }

  /** One turn of the loop; a closed session reads nothing more. */
  function Turn(cfg: Providers, codec: Codec, s: SessionState, input: Input): SessionState {
    if !s.open then s
    else if input.ReadFails? then Close(s, None)
    else if input.code == DISCONNECT then Close(s, Some(codec.reason(input.data)))
    else
      var r := Handle(cfg, codec, s, input);
      if r.ok then r.s else Close(r.s, None)
  }

  const FRESH := SessionState(0, false, false, [], [], true)

  /** A session opens by sending our Hello, which may already fail. */
  function Opened(delivered: bool): SessionState {
    var r := Write(FRESH, HelloPacket, delivered);
    if r.ok then r.s else Close(r.s, None)
  }

  function Run(cfg: Providers, codec: Codec, delivered: bool, inputs: seq<Input>): SessionState {
    if inputs == [] then Opened(delivered)
    else Turn(cfg, codec, Run(cfg, codec, delivered, inputs[..|inputs| - 1]), inputs[|inputs| - 1])
  }

  // ----- Status safety -----

  function IsStatus(): Sent -> int {
    (e: Sent) => if e.packet.StatusPacket? then 1 else 0
  }

  function StatusCount(written: seq<Sent>): int {
    Sum(written, IsStatus())
  }

  /** A Hello the session accepts. */
  predicate AcceptedHello(codec: Codec, input: Input) {
    && input.Message? && input.code == HELLO
    && codec.hello(input.data).Some? && Validation(codec.hello(input.data).value) == None
  }

  predicate SentOk(e: Sent, k: nat) {
    && (e.packet.HelloPacket? <==> k == 0)
    && (e.packet.StatusPacket? ==> MIN_ETH_VERSION <= e.version <= MAX_ETH_VERSION && !e.packet.status.ForeignStatus?)
    && (e.packet.Receipts70Packet? ==> e.version == 70)
    && (e.packet.Receipts69Packet? ==> e.version != 70)
  }

  ghost predicate SessionOk(s: SessionState) {
    && (forall k :: 0 <= k < |s.written| ==> SentOk(s.written[k], k))
    && (s.version == 0 || MIN_ETH_VERSION <= s.version <= MAX_ETH_VERSION)
    && (s.snappy <==> s.version != 0)
    && (s.open ==> s.written != [])
    && StatusCount(s.written) == (if s.statusSent then 1 else 0)
  }

  // ----- A handler writes at most one packet and publishes at most one event -----

  ghost predicate Steps(s: SessionState, r: Handled) {
    Grows(s.written, r.s.written) && Grows(s.published, r.s.published)
  }

  lemma HandshakeGrows(cfg: Providers, codec: Codec, s: SessionState, m: Input)
    requires m.Message? && (m.code == HELLO || m.code == STATUS)
    ensures Steps(s, Handle(cfg, codec, s, m))
  {
  }

  lemma RequestGrows(cfg: Providers, codec: Codec, s: SessionState, m: Input)
    requires m.Message? && (m.code == GET_BLOCK_HEADERS || m.code == GET_BLOCK_BODIES || m.code == GET_RECEIPTS)
    ensures Steps(s, Handle(cfg, codec, s, m))
  {
  }

  lemma HandleGrows(cfg: Providers, codec: Codec, s: SessionState, m: Input)
    requires m.Message?
    ensures Steps(s, Handle(cfg, codec, s, m))
  {
    if m.code == HELLO || m.code == STATUS {
      HandshakeGrows(cfg, codec, s, m);
    } else if m.code == GET_BLOCK_HEADERS || m.code == GET_BLOCK_BODIES || m.code == GET_RECEIPTS {
      RequestGrows(cfg, codec, s, m);
    }
  }

  function SentBy(cfg: Providers, codec: Codec, s: SessionState, m: Input): Option<Sent>
    requires m.Message?
  {
    Newest(s.written, Handle(cfg, codec, s, m).s.written)
  }

  /** What a packet written by a handler has to do with the flags the handler leaves behind. */
  predicate Wrote(s: SessionState, r: Handled, e: Option<Sent>) {
    match e
    case None => r.s.statusSent == s.statusSent
    case Some(Sent(packet, version)) =>
      && r.ok && version == r.s.version && !packet.HelloPacket?
      && (if packet.StatusPacket? then !s.statusSent && r.s.statusSent && !packet.status.ForeignStatus? && version != 0
          else r.s.statusSent == s.statusSent)
      && (packet.Receipts70Packet? ==> version >= 70)
      && (packet.Receipts69Packet? ==> version < 70)
  }

  lemma HelloWrites(cfg: Providers, codec: Codec, s: SessionState, m: Input)
    requires m.Message? && m.code == HELLO
    ensures var r := Handle(cfg, codec, s, m);
            && Wrote(s, r, SentBy(cfg, codec, s, m))
            && (if AcceptedHello(codec, m)
                then r.s.version == NegotiatedVersion(codec.hello(m.data).value.caps)
                     && MIN_ETH_VERSION <= r.s.version <= MAX_ETH_VERSION && r.s.snappy
                else r.s == s && !r.ok)
  {
    if codec.hello(m.data).Some? {
      CapabilityLoopsAgree(codec.hello(m.data).value);
    }
  }

  lemma StatusWrites(cfg: Providers, codec: Codec, s: SessionState, m: Input)
    requires m.Message? && m.code == STATUS
    ensures var r := Handle(cfg, codec, s, m);
            Wrote(s, r, SentBy(cfg, codec, s, m)) && r.s.version == s.version && r.s.snappy == s.snappy
  {
  }

  lemma ReceiptsWrite(cfg: Providers, codec: Codec, s: SessionState, m: Input)
    requires m.Message? && m.code == GET_RECEIPTS
    ensures var r := Handle(cfg, codec, s, m);
            Wrote(s, r, SentBy(cfg, codec, s, m)) && r.s.version == s.version && r.s.snappy == s.snappy
  {
  }

  lemma OthersWrite(cfg: Providers, codec: Codec, s: SessionState, m: Input)
    requires m.Message? && m.code != HELLO
    ensures var r := Handle(cfg, codec, s, m);
            Wrote(s, r, SentBy(cfg, codec, s, m)) && r.s.version == s.version && r.s.snappy == s.snappy
  {
    if m.code == STATUS {
      StatusWrites(cfg, codec, s, m);
    } else if m.code == GET_RECEIPTS {
      ReceiptsWrite(cfg, codec, s, m);
    }
  }

  lemma HandlersStayOpen(cfg: Providers, codec: Codec, s: SessionState, m: Input)
    requires m.Message? && s.open
    ensures Handle(cfg, codec, s, m).s.open
  {
  }

  lemma WritingKeepsOk(s: SessionState, r: Handled, e: Option<Sent>)
    requires SessionOk(s) && s.open && r.s.open && Grows(s.written, r.s.written)
    requires e == Newest(s.written, r.s.written) && Wrote(s, r, e)
    requires r.s.version == 0 || MIN_ETH_VERSION <= r.s.version <= MAX_ETH_VERSION
    requires r.s.snappy <==> r.s.version != 0
    ensures SessionOk(r.s)
  {
    GrowsSum(s.written, r.s.written, IsStatus());
    if e.None? {
      assert r.s.written == s.written;
    }
  }

  lemma TurnKeepsOk(cfg: Providers, codec: Codec, s: SessionState, input: Input)
    requires SessionOk(s)
    ensures SessionOk(Turn(cfg, codec, s, input))
  {
    if s.open && input.Message? && input.code != DISCONNECT {
      if input.code == HELLO {
        HelloWrites(cfg, codec, s, input);
      } else {
        OthersWrite(cfg, codec, s, input);
      }
      HandleGrows(cfg, codec, s, input);
      HandlersStayOpen(cfg, codec, s, input);
      WritingKeepsOk(s, Handle(cfg, codec, s, input), SentBy(cfg, codec, s, input));
    }
  }

  /**
   * Status safety of every run: Hello is the first packet written and never written again, at most
   * one Status is ever written and only under version 68, 69 or 70, and the negotiated version is 0
   * or in that range.
   */
  lemma {:induction false} StatusSafety(cfg: Providers, codec: Codec, delivered: bool, inputs: seq<Input>)
    ensures SessionOk(Run(cfg, codec, delivered, inputs))
  {
    if inputs == [] {
      assert Opened(true).written == [] + [Sent(HelloPacket, 0)];
      SumAppend([], Sent(HelloPacket, 0), IsStatus());
    } else {
      StatusSafety(cfg, codec, delivered, inputs[..|inputs| - 1]);
      TurnKeepsOk(cfg, codec, Run(cfg, codec, delivered, inputs[..|inputs| - 1]), inputs[|inputs| - 1]);
    }
  }

  lemma StatusNeedsHello(cfg: Providers, codec: Codec, s: SessionState, input: Input)
    ensures var s' := Turn(cfg, codec, s, input);
            s'.version == s.version || AcceptedHello(codec, input)
  {
  }

  /** No Status is written, and no version is in force, before a valid Hello was received. */
  lemma {:induction false} NoStatusBeforeHello(cfg: Providers, codec: Codec, delivered: bool, inputs: seq<Input>)
    ensures var s := Run(cfg, codec, delivered, inputs);
            s.version != 0 || StatusCount(s.written) > 0 ==> exists input <- inputs :: AcceptedHello(codec, input)
  {
    StatusSafety(cfg, codec, delivered, inputs);
    if inputs != [] {
      var front, input := inputs[..|inputs| - 1], inputs[|inputs| - 1];
      var s := Run(cfg, codec, delivered, front);
      NoStatusBeforeHello(cfg, codec, delivered, front);
      StatusSafety(cfg, codec, delivered, front);
      assert forall i <- front :: i in inputs;
      StatusNeedsVersion(cfg, codec, s, input);
      StatusNeedsHello(cfg, codec, s, input);
    }
  }

  lemma StatusNeedsVersion(cfg: Providers, codec: Codec, s: SessionState, input: Input)
    requires SessionOk(s)
    ensures var s' := Turn(cfg, codec, s, input);
            s'.statusSent && !s.statusSent ==> s'.version != 0
  {
    if s.open && input.Message? && input.code != DISCONNECT {
      if input.code == HELLO {
        HelloWrites(cfg, codec, s, input);
      } else {
        OthersWrite(cfg, codec, s, input);
      }
    }
  }

  /** A written Status that repeats a received one, which was decoded in the form of the version in force. */
  predicate Echoes(codec: Codec, e: Sent, input: Input) {
    && e.packet.StatusPacket? && input.Message? && input.code == STATUS
    && ReceiveStatus(codec, e.version, input.data) == Some(e.packet.status)
  }

  lemma HandlerEchoes(cfg: Providers, codec: Codec, s: SessionState, m: Input)
    requires m.Message? && !cfg.status
    ensures var e := SentBy(cfg, codec, s, m);
            e.Some? && e.value.packet.StatusPacket? ==> Echoes(codec, e.value, m)
  {
    if m.code == GET_BLOCK_HEADERS || m.code == GET_BLOCK_BODIES || m.code == GET_RECEIPTS {
      RequestsWriteNoStatus(cfg, codec, s, m);
    }
  }

  lemma RequestsWriteNoStatus(cfg: Providers, codec: Codec, s: SessionState, m: Input)
    requires m.Message? && (m.code == GET_BLOCK_HEADERS || m.code == GET_BLOCK_BODIES || m.code == GET_RECEIPTS)
    ensures var e := SentBy(cfg, codec, s, m); e.Some? ==> !e.value.packet.StatusPacket?
  {
  }

  lemma TurnEchoes(cfg: Providers, codec: Codec, s: SessionState, input: Input, e: Sent)
    requires !cfg.status && e in Turn(cfg, codec, s, input).written && e.packet.StatusPacket?
    ensures e in s.written || Echoes(codec, e, input)
  {
    if s.open && input.Message? && input.code != DISCONNECT {
      HandlerEchoes(cfg, codec, s, input);
      HandleGrows(cfg, codec, s, input);
    }
  }

  /**
   * In every run of a session without a status provider, whatever other providers it has, each Status
   * written repeats a received one and has the form of the version under which it is written.
   */
  lemma {:induction false} EchoedStatusFitsVersion(cfg: Providers, codec: Codec, delivered: bool, inputs: seq<Input>,
                                                   e: Sent)
    requires !cfg.status && e in Run(cfg, codec, delivered, inputs).written && e.packet.StatusPacket?
    ensures exists input <- inputs :: Echoes(codec, e, input)
    ensures match e.packet.status
            case Status68(_) => e.version == 68
            case Status69(_) => e.version in {69, 70}
            case ForeignStatus => false
  {
    var front, input := inputs[..|inputs| - 1], inputs[|inputs| - 1];
    assert inputs == front + [input];
    var s := Run(cfg, codec, delivered, front);
    TurnEchoes(cfg, codec, s, input, e);
    if e in s.written {
      EchoedStatusFitsVersion(cfg, codec, delivered, front, e);
    }
  }

  /** After an accepted Hello a Status is refused only if it does not decode in its version's form. */
  lemma StatusVersionIsAlwaysSupported(cfg: Providers, codec: Codec, delivered: bool, inputs: seq<Input>, data: Data)
    requires exists input <- inputs :: AcceptedHello(codec, input)
    requires Run(cfg, codec, delivered, inputs).open
    ensures var v := Run(cfg, codec, delivered, inputs).version;
            && v in {68, 69, 70}
            && (ReceiveStatus(codec, v, data) == None
                <==> if v == 68 then codec.status68(data) == None else codec.status69(data) == None)
  {
    VersionStays(cfg, codec, delivered, inputs);
    StatusSafety(cfg, codec, delivered, inputs);
  }

  lemma {:induction false} VersionStays(cfg: Providers, codec: Codec, delivered: bool, inputs: seq<Input>)
    requires exists input <- inputs :: AcceptedHello(codec, input)
    requires Run(cfg, codec, delivered, inputs).open
    ensures Run(cfg, codec, delivered, inputs).version != 0
  {
    var front, input := inputs[..|inputs| - 1], inputs[|inputs| - 1];
    var s := Run(cfg, codec, delivered, front);
    assert inputs == front + [input];
    StatusSafety(cfg, codec, delivered, front);
    if !AcceptedHello(codec, input) {
      VersionStays(cfg, codec, delivered, front);
    }
    if input.Message? {
      if input.code == HELLO {
        HelloWrites(cfg, codec, s, input);
      } else if input.code != DISCONNECT {
        OthersWrite(cfg, codec, s, input);
      }
    }
  }

  // ----- Replies match requests -----

  /** A request as the peer sees it, or the reply to it: a message code and a request id. */
  datatype Tag = Tag(code: nat, id: nat)

  /** The reply tag of a packet: a Hello and a Status answer no request. */
  function ReplyTags(packet: Packet): seq<Tag> {
    match packet
    case PongPacket => [Tag(PONG, 0)]
    case HeadersPacket(id, _) => [Tag(BLOCK_HEADERS, id)]
    case BodiesPacket(id, _) => [Tag(BLOCK_BODIES, id)]
    case PooledPacket(id) => [Tag(POOLED_TRANSACTIONS, id)]
    case Receipts69Packet(id, _) => [Tag(RECEIPTS, id)]
    case Receipts70Packet(id, _) => [Tag(RECEIPTS, id)]
    case _ => []
  }

  function Replies(written: seq<Sent>): seq<Tag> {
    if written == [] then []
    else Replies(written[..|written| - 1]) + ReplyTags(written[|written| - 1].packet)
  }

  function Decoded(codec: Codec, version: nat, m: Input): Option<Request>
    requires m.Message?
  {
    if m.code == PING then Some(Request(0, []))
    else if m.code == GET_BLOCK_HEADERS then codec.headers(m.data)
    else if m.code == GET_BLOCK_BODIES then codec.bodies(m.data)
    else if m.code == GET_POOLED_TRANSACTIONS then codec.pooled(m.data)
    else if m.code == GET_RECEIPTS then ReceiveGetReceipts(codec, version, m.data)
    else None
  }

  /** The request a turn completed, if its message was one and the loop went on. */
  function CompletedBy(cfg: Providers, codec: Codec, s: SessionState, input: Input): seq<Tag> {
    if input.Message? && s.open && Turn(cfg, codec, s, input).open && Decoded(codec, s.version, input).Some?
    then [Tag(input.code, Decoded(codec, s.version, input).value.id)]
    else []
  }

  function Completed(cfg: Providers, codec: Codec, delivered: bool, inputs: seq<Input>): seq<Tag> {
    if inputs == [] then []
    else
      var front := inputs[..|inputs| - 1];
      Completed(cfg, codec, delivered, front)
      + CompletedBy(cfg, codec, Run(cfg, codec, delivered, front), inputs[|inputs| - 1])
  }

  /** In the RLPx and eth protocols a reply's code follows its request's. */
  function ReplyTo(request: Tag): Tag {
    Tag(request.code + 1, request.id)
  }

  function ReplyToAll(requests: seq<Tag>): seq<Tag> {
    seq(|requests|, i requires 0 <= i < |requests| => ReplyTo(requests[i]))
  }

  lemma RepliesGrow(before: seq<Sent>, after: seq<Sent>)
    requires Grows(before, after)
    ensures var e := Newest(before, after);
            Replies(after) == Replies(before) + (if e.Some? then ReplyTags(e.value.packet) else [])
  {
    if Newest(before, after).Some? {
      assert after[..|before|] == before;
    } else {
      assert after == before;
    }
  }

  /** The tag of the packet a handler wrote, against the request it decoded. */
  predicate Replied(cfg: Providers, codec: Codec, s: SessionState, m: Input)
    requires m.Message?
  {
    var (r, e, request) := (Handle(cfg, codec, s, m), SentBy(cfg, codec, s, m), Decoded(codec, s.version, m));
    (if e.Some? then ReplyTags(e.value.packet) else [])
    == (if r.ok && request.Some? then [ReplyTo(Tag(m.code, request.value.id))] else [])
  }

  lemma ListReplies(cfg: Providers, codec: Codec, s: SessionState, m: Input)
    requires m.Message? && (m.code == GET_BLOCK_HEADERS || m.code == GET_BLOCK_BODIES)
    ensures Replied(cfg, codec, s, m)
  {
  }

  lemma ReceiptsReplies(cfg: Providers, codec: Codec, s: SessionState, m: Input)
    requires m.Message? && m.code == GET_RECEIPTS
    ensures Replied(cfg, codec, s, m)
  {
  }

  lemma HandshakeReplies(cfg: Providers, codec: Codec, s: SessionState, m: Input)
    requires m.Message? && (m.code == HELLO || m.code == STATUS)
    ensures Replied(cfg, codec, s, m)
  {
  }

  lemma HandlerReplies(cfg: Providers, codec: Codec, s: SessionState, m: Input)
    requires m.Message? && m.code != DISCONNECT
    ensures Replied(cfg, codec, s, m)
  {
    if m.code == HELLO || m.code == STATUS {
      HandshakeReplies(cfg, codec, s, m);
    } else if m.code == GET_BLOCK_HEADERS || m.code == GET_BLOCK_BODIES {
      ListReplies(cfg, codec, s, m);
    } else if m.code == GET_RECEIPTS {
      ReceiptsReplies(cfg, codec, s, m);
    }
  }

  /**
   * Request and reply match over whole runs: the replies written are, in order, one for each
   * completed request, with the code that follows the request's and the same request id.
   */
  lemma {:induction false} RepliesMatchRequests(cfg: Providers, codec: Codec, delivered: bool, inputs: seq<Input>)
    ensures Replies(Run(cfg, codec, delivered, inputs).written)
            == ReplyToAll(Completed(cfg, codec, delivered, inputs))
  {
    if inputs == [] {
      if delivered {
        assert Opened(true).written == [Sent(HelloPacket, 0)];
        RepliesGrow([], [Sent(HelloPacket, 0)]);
      }
    } else {
      var front, input := inputs[..|inputs| - 1], inputs[|inputs| - 1];
      var s := Run(cfg, codec, delivered, front);
      RepliesMatchRequests(cfg, codec, delivered, front);
      TurnReplies(cfg, codec, s, input);
    }
  }

  lemma TurnReplies(cfg: Providers, codec: Codec, s: SessionState, input: Input)
    ensures Replies(Turn(cfg, codec, s, input).written)
            == Replies(s.written) + ReplyToAll(CompletedBy(cfg, codec, s, input))
  {
    if s.open && input.Message? && input.code != DISCONNECT {
      HandlerReplies(cfg, codec, s, input);
      HandleGrows(cfg, codec, s, input);
      RepliesGrow(s.written, Handle(cfg, codec, s, input).s.written);
      HandlersStayOpen(cfg, codec, s, input);
    }
  }

  /**
   * The two version tests for receipts: the reply has the form the request was decoded in exactly
   * when the version is at most 70, which holds of every version a run can negotiate. So in a run a
   * request is decoded with the eth/70 decoder exactly when its reply is an eth/70 packet.
   */
  lemma ReceiptsFormsAgree(cfg: Providers, codec: Codec, delivered: bool, inputs: seq<Input>, version: nat, id: nat,
      items: seq<Item>, data: Data)
    ensures (version == 70 <==> ReceiptsFor(version, id, items).Receipts70Packet?) <==> version <= 70
    ensures var v := Run(cfg, codec, delivered, inputs).version;
            && v <= 70
            && ReceiveGetReceipts(codec, v, data)
               == (if ReceiptsFor(v, id, items).Receipts70Packet? then codec.receipts70(data)
                   else codec.receipts69(data))
  {
    StatusSafety(cfg, codec, delivered, inputs);
  }

  /**
   * What a reply carries: the provider's items. A failing header provider is answered with an empty
   * list, a failing body or receipt provider ends the session without a reply.
   */
  lemma RepliesCarryItems(cfg: Providers, codec: Codec, s: SessionState, m: Input)
    requires m.Message? && m.delivered && m.code in {GET_BLOCK_HEADERS, GET_BLOCK_BODIES, GET_RECEIPTS}
    requires Decoded(codec, s.version, m).Some?
    ensures var asked := if m.code == GET_BLOCK_HEADERS then cfg.headers
                         else if m.code == GET_BLOCK_BODIES then cfg.bodies else cfg.receipts;
            var items := if asked && m.items.Items? then m.items.items else [];
            var id := Decoded(codec, s.version, m).value.id;
            match SentBy(cfg, codec, s, m)
            case None => asked && m.items.ItemsFail? && m.code != GET_BLOCK_HEADERS && !Handle(cfg, codec, s, m).ok
            case Some(e) =>
              && (asked && m.items.ItemsFail? ==> m.code == GET_BLOCK_HEADERS)
              && (match e.packet
                  case HeadersPacket(i, list) => m.code == GET_BLOCK_HEADERS && (i, list) == (id, items)
                  case BodiesPacket(i, list) => m.code == GET_BLOCK_BODIES && (i, list) == (id, items)
                  case Receipts69Packet(i, list) => m.code == GET_RECEIPTS && (i, list) == (id, items)
                  case Receipts70Packet(i, list) => m.code == GET_RECEIPTS && (i, list) == (id, items)
                  case _ => false)
  {
  }

  // ----- How a session ends -----

  function IsDisconnect(): Published -> int {
    (e: Published) => if e.DisconnectEvent? then 1 else 0
  }

  function Disconnects(s: SessionState): int {
    Sum(s.published, IsDisconnect())
  }

  /** A receipts reply that could be built but not written. */
  predicate ReceiptsUndelivered(cfg: Providers, codec: Codec, s: SessionState, input: Input) {
    && s.open && input.Message? && input.code == GET_RECEIPTS && !input.delivered
    && ReceiveGetReceipts(codec, s.version, input.data).Some?
    && !(cfg.receipts && input.items.ItemsFail?)
  }

  lemma HandlerDisconnects(cfg: Providers, codec: Codec, s: SessionState, m: Input)
    requires m.Message? && s.open
    ensures var r := Handle(cfg, codec, s, m);
            Weigh(Newest(s.published, r.s.published), IsDisconnect())
            == (if ReceiptsUndelivered(cfg, codec, s, m) then 1 else 0)
    ensures ReceiptsUndelivered(cfg, codec, s, m) ==> !Handle(cfg, codec, s, m).ok
  {
  }

  lemma CloseDisconnects(s: SessionState, reason: Option<nat>)
    ensures Disconnects(Close(s, reason)) == Disconnects(s) + 1
  {
    SumAppend(s.published, DisconnectEvent(reason), IsDisconnect());
  }

  lemma TurnDisconnects(cfg: Providers, codec: Codec, s: SessionState, input: Input)
    ensures var s' := Turn(cfg, codec, s, input);
            Disconnects(s') == Disconnects(s)
              + (if !s.open || s'.open then 0 else if ReceiptsUndelivered(cfg, codec, s, input) then 2 else 1)
  {
    if s.open && input.Message? && input.code != DISCONNECT {
      var r := Handle(cfg, codec, s, input);
      HandlersStayOpen(cfg, codec, s, input);
      HandleGrows(cfg, codec, s, input);
      HandlerDisconnects(cfg, codec, s, input);
      GrowsSum(s.published, r.s.published, IsDisconnect());
      CloseDisconnects(r.s, None);
    } else if s.open {
      CloseDisconnects(s, None);
      if input.Message? {
        CloseDisconnects(s, Some(codec.reason(input.data)));
      }
    }
  }

  /** The turn that closed a session had to write a receipts reply and could not. */
  predicate ClosedByLostReceipts(cfg: Providers, codec: Codec, delivered: bool, inputs: seq<Input>, k: nat) {
    && k < |inputs|
    && var s := Run(cfg, codec, delivered, inputs[..k]);
    && !Turn(cfg, codec, s, inputs[k]).open && ReceiptsUndelivered(cfg, codec, s, inputs[k])
  }

  ghost predicate EndedByLostReceipts(cfg: Providers, codec: Codec, delivered: bool, inputs: seq<Input>) {
    exists k: nat :: ClosedByLostReceipts(cfg, codec, delivered, inputs, k)
  }

  lemma EndedOneMore(cfg: Providers, codec: Codec, delivered: bool, front: seq<Input>, input: Input)
    ensures var s := Run(cfg, codec, delivered, front);
            EndedByLostReceipts(cfg, codec, delivered, front + [input]) <==>
            EndedByLostReceipts(cfg, codec, delivered, front)
            || (!Turn(cfg, codec, s, input).open && ReceiptsUndelivered(cfg, codec, s, input))
  {
    var inputs := front + [input];
    assert forall k: nat :: k <= |front| ==> inputs[..k] == front[..k];
    assert inputs[..|front|] == front;
    if EndedByLostReceipts(cfg, codec, delivered, front) {
      var k: nat :| ClosedByLostReceipts(cfg, codec, delivered, front, k);
      assert ClosedByLostReceipts(cfg, codec, delivered, inputs, k);
    }
    var s := Run(cfg, codec, delivered, front);
    if !Turn(cfg, codec, s, input).open && ReceiptsUndelivered(cfg, codec, s, input) {
      assert ClosedByLostReceipts(cfg, codec, delivered, inputs, |front|);
    }
    if EndedByLostReceipts(cfg, codec, delivered, inputs) {
      var k: nat :| ClosedByLostReceipts(cfg, codec, delivered, inputs, k);
      if k < |front| {
        assert ClosedByLostReceipts(cfg, codec, delivered, front, k);
      }
    }
  }

  /**
   * Subscribers hear nothing of an end while the session is open, and afterwards have heard of it
   * once, or twice exactly when the turn that closed it lost a receipts reply: then the handler and
   * the loop both announce it.
   */
  lemma {:induction false} EndIsAnnounced(cfg: Providers, codec: Codec, delivered: bool, inputs: seq<Input>)
    ensures var s := Run(cfg, codec, delivered, inputs);
            && (s.open <==> Disconnects(s) == 0)
            && 0 <= Disconnects(s) <= 2
            && (Disconnects(s) == 2 <==> EndedByLostReceipts(cfg, codec, delivered, inputs))
  {
    if inputs == [] {
      SumAppend([], DisconnectEvent(None), IsDisconnect());
      assert Opened(false).published == [] + [DisconnectEvent(None)];
    } else {
      var front, input := inputs[..|inputs| - 1], inputs[|inputs| - 1];
      assert inputs == front + [input];
      EndIsAnnounced(cfg, codec, delivered, front);
      TurnDisconnects(cfg, codec, Run(cfg, codec, delivered, front), input);
      EndedOneMore(cfg, codec, delivered, front, input);
    }
  }

  /** It happens: a receipts request whose reply cannot be written ends a fresh session with two announcements. */
  lemma LostReceiptsAnnouncedTwice(codec: Codec, data: Data)
    requires codec.receipts69(data).Some?
    ensures var lost := Message(GET_RECEIPTS, data, StatusFails, ItemsFail, false);
            Disconnects(Run(Providers(false, false, false, false), codec, true, [lost])) == 2
  {
    var cfg := Providers(false, false, false, false);
    var lost := Message(GET_RECEIPTS, data, StatusFails, ItemsFail, false);
    assert [lost][..0] == [];
    EndIsAnnounced(cfg, codec, true, []);
    TurnDisconnects(cfg, codec, Opened(true), lost);
  }
}

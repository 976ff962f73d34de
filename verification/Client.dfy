/**
 * The execution-layer client. Its handlers update the session's fields and write packets as they
 * go; each is proved against the session's step function, and the receive loop against whole runs.
 */
module Client {
  import opened Common
  import opened Hello
  import opened Session

  class Client {
    const providers: Providers
    const codec: Codec
    var ethCapVersion: nat
    var statusSent: bool
    var snappy: bool
    ghost var written: seq<Sent>
    ghost var published: seq<Published>
    ghost var open: bool

    constructor (providers: Providers, codec: Codec)
      ensures View() == FRESH && this.providers == providers && this.codec == codec
    {
      this.providers, this.codec := providers, codec;
      ethCapVersion, statusSent, snappy := 0, false, false;
      written, published, open := [], [], true;
    }

    ghost function View(): SessionState
      reads this
    {
      SessionState(ethCapVersion, statusSent, snappy, written, published, open)
    }

    method WriteRLPx(packet: Packet, delivered: bool) returns (ok: bool)
      modifies this`written
      ensures Handled(View(), ok) == Write(old(View()), packet, delivered)
    {
      if delivered {
        written := written + [Sent(packet, ethCapVersion)];
      }
      return delivered;
    }

    method Publish(event: Published)
      modifies this`published
      ensures View() == old(View()).Publish(event)
    {
      published := published + [event];
    }

    method HandleSessionError(reason: Option<nat>)
      modifies this`published, this`open
      ensures View() == Close(old(View()), reason)
    {
      Publish(DisconnectEvent(reason));
      open := false;
    }

    method SendStatus(status: Status, delivered: bool) returns (ok: bool)
      modifies this`written, this`statusSent
      ensures Handled(View(), ok) == Session.SendStatus(old(View()), status, delivered)
    {
      if status.ForeignStatus? {
        return false;
      }
      ok := WriteRLPx(StatusPacket(status), delivered);
      if ok {
        statusSent := true;
      }
    }

    method HandleHello(m: Input) returns (ok: bool)
      requires m.Message?
      modifies this
      ensures Handled(View(), ok) == Session.HandleHello(providers, codec, old(View()), m)
    {
      var decoded := codec.hello(m.data);
      if decoded.None? {
        return false;
      }
      var hello := decoded.value;
      var invalid := Validate(hello);
      if invalid.Some? {
        return false;
      }
      ethCapVersion := ETHProtocolVersion(hello);
      Publish(HelloEvent(hello));
      snappy := true;
      if providers.status && !statusSent {
        match m.status {
          case StatusFails => return false;
          case Offers(None) =>
          case Offers(Some(status)) =>
            ok := SendStatus(status, m.delivered);
            return;
        }
      }
      return true;
    }

    method HandleStatus(m: Input) returns (ok: bool)
      requires m.Message?
      modifies this
      ensures Handled(View(), ok) == Session.HandleStatus(providers, codec, old(View()), m)
    {
      var received := ReceiveStatus(codec, ethCapVersion, m.data);
      if received.None? {
        return false;
      }
      var response := received.value;
      if providers.status {
        if m.status.StatusFails? {
          return false;
        }
        if m.status.status.Some? {
          response := m.status.status.value;
        }
      }
      Publish(StatusEvent(received.value));
      if !statusSent {
        ok := SendStatus(response, m.delivered);
        return;
      }
      return true;
    }

    method HandleGetBlockHeaders(m: Input) returns (ok: bool)
      requires m.Message?
      modifies this`written
      ensures Handled(View(), ok) == Session.HandleGetBlockHeaders(providers, codec, old(View()), m)
    {
      var request := codec.headers(m.data);
      if request.None? {
        return false;
      }
      var list := [];
      if providers.headers && m.items.Items? {
        list := m.items.items;
      }
      ok := WriteRLPx(HeadersPacket(request.value.id, list), m.delivered);
    }

    method HandleGetBlockBodies(m: Input) returns (ok: bool)
      requires m.Message?
      modifies this`written
      ensures Handled(View(), ok) == Session.HandleGetBlockBodies(providers, codec, old(View()), m)
    {
      var request := codec.bodies(m.data);
      if request.None? {
        return false;
      }
      var list := [];
      if providers.bodies {
        if m.items.ItemsFail? {
          return false;
        }
        list := m.items.items;
      }
      ok := WriteRLPx(BodiesPacket(request.value.id, list), m.delivered);
    }

    method HandleGetPooledTransactions(m: Input) returns (ok: bool)
      requires m.Message?
      modifies this`written
      ensures Handled(View(), ok) == Session.HandleGetPooledTransactions(codec, old(View()), m)
    {
      var request := codec.pooled(m.data);
      if request.None? {
        return false;
      }
      ok := WriteRLPx(PooledPacket(request.value.id), m.delivered);
    }

    method HandleGetReceipts(m: Input) returns (ok: bool)
      requires m.Message?
      modifies this`written, this`published
      ensures Handled(View(), ok) == Session.HandleGetReceipts(providers, codec, old(View()), m)
    {
      var request := ReceiveGetReceipts(codec, ethCapVersion, m.data);
      if request.None? {
        return false;
      }
      var list := [];
      if providers.receipts {
        if m.items.ItemsFail? {
          return false;
        }
        list := m.items.items;
      }
      ok := WriteRLPx(ReceiptsFor(ethCapVersion, request.value.id, list), m.delivered);
      if !ok {
        Publish(DisconnectEvent(None));
      }
    }

    method HandlePlain(m: Input) returns (ok: bool)
      requires m.Message?
      modifies this`published
      ensures Handled(View(), ok) == Session.HandlePlain(codec, old(View()), m)
    {
      if !codec.plain(m.code, m.data) {
        return false;
      }
      if m.code == TRANSACTIONS || m.code == NEW_POOLED_TRANSACTION_HASHES {
        Publish(DataEvent(m.code, m.data));
      }
      return true;
    }

    /** The switch of the receive loop. */
    method Dispatch(m: Input) returns (ok: bool)
      requires m.Message? && m.code != DISCONNECT
      modifies this
      ensures Handled(View(), ok) == Handle(providers, codec, old(View()), m)
    {
      if m.code == HELLO {
        ok := HandleHello(m);
      } else if m.code == PING {
        ok := WriteRLPx(PongPacket, m.delivered);
      } else if m.code == STATUS {
        ok := HandleStatus(m);
      } else if m.code == GET_BLOCK_HEADERS {
        ok := HandleGetBlockHeaders(m);
      } else if m.code == GET_BLOCK_BODIES {
        ok := HandleGetBlockBodies(m);
      } else if m.code == GET_POOLED_TRANSACTIONS {
        ok := HandleGetPooledTransactions(m);
      } else if m.code == GET_RECEIPTS {
        ok := HandleGetReceipts(m);
      } else if IsPlain(m.code) {
        ok := HandlePlain(m);
      } else {
        ok := true;
      }
    }

    /** The session: Hello first, then one message after another until the first failure. */
    method StartSession(delivered: bool, inputs: seq<Input>)
      requires View() == FRESH
      modifies this
      ensures View() == Run(providers, codec, delivered, inputs)
    {
      var ok := WriteRLPx(HelloPacket, delivered);
      if !ok {
        HandleSessionError(None);
        ClosedForGood(providers, codec, delivered, inputs, 0);
        return;
      }
      for i := 0 to |inputs|
        invariant View() == Run(providers, codec, delivered, inputs[..i]) && open
      {
        assert inputs[..i + 1][..i] == inputs[..i];
        var m := inputs[i];
        if m.ReadFails? {
          HandleSessionError(None);
        } else if m.code == DISCONNECT {
          HandleSessionError(Some(codec.reason(m.data)));
        } else {
          ghost var before := View();
          HandlersStayOpen(providers, codec, before, m);
          ok := Dispatch(m);
          if ok {
            continue;
          }
          HandleSessionError(None);
        }
        ClosedForGood(providers, codec, delivered, inputs, i + 1);
        return;
      }
      assert inputs[..|inputs|] == inputs;
    }
  }

  /** Once a session has closed, the messages that follow change nothing. */
  lemma {:induction false} ClosedForGood(cfg: Providers, codec: Codec, delivered: bool, inputs: seq<Input>, i: nat)
    requires i <= |inputs| && !Run(cfg, codec, delivered, inputs[..i]).open
    ensures Run(cfg, codec, delivered, inputs) == Run(cfg, codec, delivered, inputs[..i])
  {
    if i == |inputs| {
      assert inputs[..i] == inputs;
    } else {
      var front := inputs[..|inputs| - 1];
      assert front[..i] == inputs[..i];
      ClosedForGood(cfg, codec, delivered, front, i);
    }
  }
}

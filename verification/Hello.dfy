/** The RLPx Hello message: its capability list, its validation and the version it negotiates. */
module Hello {
  import opened Common

  const MIN_P2P_VERSION := 5
  const P2P_VERSION := 5
  const MIN_ETH_VERSION := 68
  const MAX_ETH_VERSION := 70
  const ETH_CAP := "eth"

  datatype Cap = Cap(name: string, version: nat)

  datatype HelloMessage = HelloMessage(version: nat, name: string, caps: seq<Cap>, id: seq<Byte>)

  datatype HelloError = P2PVersionTooLow(version: nat) | NoEth | EthVersionUnsupported(highest: nat)

  predicate Supported(cap: Cap) {
    cap.name == ETH_CAP && MIN_ETH_VERSION <= cap.version <= MAX_ETH_VERSION
  }

  /** The highest version of the eth capabilities that pass a test, 0 when there is none. */
  function Highest(caps: seq<Cap>, accept: Cap -> bool): nat {
    if caps == [] then 0
    else
      var rest, cap := Highest(caps[..|caps| - 1], accept), caps[|caps| - 1];
      if accept(cap) && cap.version > rest then cap.version else rest
  }

  predicate IsEth(cap: Cap) {
    cap.name == ETH_CAP
  }

  function HighestEth(caps: seq<Cap>): nat {
    Highest(caps, IsEth)
  }

  function NegotiatedVersion(caps: seq<Cap>): nat {
    Highest(caps, Supported)
  }

  function Validation(h: HelloMessage): Option<HelloError> {
    if h.version < MIN_P2P_VERSION then Some(P2PVersionTooLow(h.version))
    else if HighestEth(h.caps) == 0 then Some(NoEth)
    else if forall cap <- h.caps :: !Supported(cap) then Some(EthVersionUnsupported(HighestEth(h.caps)))
    else None
  }

  /** The loop of the validation: one pass finds the highest version and whether any is supported. */
  method Validate(h: HelloMessage) returns (err: Option<HelloError>)
    ensures err == Validation(h)
  {
    if h.version < MIN_P2P_VERSION {
      return Some(P2PVersionTooLow(h.version));
    }
    var supported, highest := false, 0;
    for i := 0 to |h.caps|
      invariant supported <==> exists k :: 0 <= k < i && Supported(h.caps[k])
      invariant highest == HighestEth(h.caps[..i])
    {
      var cap := h.caps[i];
      assert h.caps[..i + 1][..i] == h.caps[..i];
      if cap.name == ETH_CAP {
        if cap.version >= MIN_ETH_VERSION && cap.version <= MAX_ETH_VERSION {
          supported := true;
        }
        if cap.version > highest {
          highest := cap.version;
        }
      }
    }
    assert h.caps[..|h.caps|] == h.caps;
    if highest == 0 {
      return Some(NoEth);
    }
    if !supported {
      return Some(EthVersionUnsupported(highest));
    }
    return None;
  }

  /** The loop of the negotiation: a version is taken only when it is higher and supported. */
  method ETHProtocolVersion(h: HelloMessage) returns (highest: nat)
    ensures highest == NegotiatedVersion(h.caps)
  {
    highest := 0;
    for i := 0 to |h.caps|
      invariant highest == NegotiatedVersion(h.caps[..i])
    {
      var cap := h.caps[i];
      assert h.caps[..i + 1][..i] == h.caps[..i];
      if cap.name == ETH_CAP {
        if cap.version > highest && cap.version >= MIN_ETH_VERSION && cap.version <= MAX_ETH_VERSION {
          highest := cap.version;
        }
      }
    }
    assert h.caps[..|h.caps|] == h.caps;
  }

  /** The capabilities this client offers, highest first. */
  method SupportedEthCaps() returns (caps: seq<Cap>)
    ensures caps == OFFERED
  {
    caps := [];
    var i := MAX_ETH_VERSION;
    while i >= MIN_ETH_VERSION
      invariant MIN_ETH_VERSION - 1 <= i <= MAX_ETH_VERSION
      invariant caps == OFFERED[..MAX_ETH_VERSION - i]
    {
      caps := caps + [Cap(ETH_CAP, i)];
      if i == 0 {
        break;
      }
      i := i - 1;
    }
  }

  const OFFERED: seq<Cap> := [Cap(ETH_CAP, 70), Cap(ETH_CAP, 69), Cap(ETH_CAP, 68)]

  lemma {:induction false} HighestIsMaximal(caps: seq<Cap>, accept: Cap -> bool)
    ensures var highest := Highest(caps, accept);
            && (forall cap <- caps :: accept(cap) ==> cap.version <= highest)
            && (highest != 0 ==> exists cap <- caps :: accept(cap) && cap.version == highest)
  {
    if caps != [] {
      HighestIsMaximal(caps[..|caps| - 1], accept);
      assert caps == caps[..|caps| - 1] + [caps[|caps| - 1]];
    }
  }

  /**
   * The two capability loops agree: a Hello is accepted exactly when its p2p version is high enough
   * and the negotiation finds a version, and that version is then the highest one advertised
   * between 68 and 70.
   */
  lemma CapabilityLoopsAgree(h: HelloMessage)
    ensures var v := NegotiatedVersion(h.caps);
            && (Validation(h) == None <==> h.version >= 5 && v != 0)
            && (v != 0 ==> 68 <= v <= 70 && Cap("eth", v) in h.caps)
            && (forall cap <- h.caps :: Supported(cap) <==> cap.name == "eth" && 68 <= cap.version <= 70)
            && (forall cap <- h.caps :: Supported(cap) ==> cap.version <= v)
  {
    HighestIsMaximal(h.caps, Supported);
    HighestIsMaximal(h.caps, IsEth);
    if NegotiatedVersion(h.caps) != 0 {
      var cap :| cap in h.caps && Supported(cap) && cap.version == NegotiatedVersion(h.caps);
      assert cap == Cap(ETH_CAP, cap.version);
      assert IsEth(cap);
    }
  }

  /** Why a Hello is refused: the reported version is the highest eth version advertised. */
  lemma RefusalsAreExact(h: HelloMessage)
    ensures match Validation(h)
            case None => exists cap <- h.caps :: Supported(cap)
            case Some(P2PVersionTooLow(v)) => v == h.version < 5
            case Some(NoEth) => h.version >= 5 && forall cap <- h.caps :: IsEth(cap) ==> cap.version == 0
            case Some(EthVersionUnsupported(v)) =>
              && h.version >= 5 && v > 0 && Cap(ETH_CAP, v) in h.caps
              && (forall cap <- h.caps :: IsEth(cap) ==> cap.version <= v && !Supported(cap))
  {
    HighestIsMaximal(h.caps, IsEth);
    if HighestEth(h.caps) != 0 {
      var cap :| cap in h.caps && IsEth(cap) && cap.version == HighestEth(h.caps);
      assert cap == Cap(ETH_CAP, cap.version);
    }
  }

  /** Two clients of this kind accept each other's Hello and settle on version 70. */
  lemma PeersOfOneKindAgree(name: string, id: seq<Byte>)
    ensures Validation(HelloMessage(P2P_VERSION, name, OFFERED, id)) == None
    ensures NegotiatedVersion(OFFERED) == 70 && OFFERED == [Cap("eth", 70), Cap("eth", 69), Cap("eth", 68)]
  {
    var h := HelloMessage(P2P_VERSION, name, OFFERED, id);
    CapabilityLoopsAgree(h);
    assert OFFERED[0] in h.caps && Supported(OFFERED[0]);
  }
}

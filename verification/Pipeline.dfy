/**
 * Typed message handlers stored behind one erased type: how a message is encoded,
 * compressed and published, and how its bytes are opened again by the validator and
 * by the processor. Values carry the tag of their type, as an interface value does.
 */
module Pipeline {
  import opened Common

  type TypeTag = nat
  type Peer = nat
  type Bytes = seq<Byte>

  datatype Any<+V> = Any(typ: TypeTag, value: V)

  /** A crash stands for the use of a component that is not there. */
  datatype Outcome<+T> = Done(value: T) | Failed(error: string) | Crash

  // ----- Compression -----

  datatype Codec = Codec(encode: Bytes -> Bytes, decode: Bytes -> Option<Bytes>, decodedLen: Bytes -> Option<int>)

  datatype Compressor = Compressor(codec: Codec, maxLength: nat) {
    function Compress(data: Bytes): Bytes {
      codec.encode(data)
    }

    function Decompress(data: Bytes): Option<Bytes> {
      match codec.decodedLen(data)
      case None => None
      case Some(length) =>
        if maxLength > 0 && length < 0 then None
        else if maxLength > 0 && length > maxLength then None
        else codec.decode(data)
    }

    predicate Fits(size: nat) {
      maxLength > 0 ==> size <= maxLength
    }
  }

  /** Decoding undoes encoding, and the announced length is that of what comes out. */
  ghost predicate InversePair(codec: Codec) {
    && (forall data :: codec.decode(codec.encode(data)) == Some(data))
    && (forall data :: codec.decode(data).Some? ==> codec.decodedLen(data) == Some(|codec.decode(data).value|))
  }

  /** The length check runs before decoding, yet no output ever exceeds the limit, whatever the input. */
  lemma OutputIsBounded(c: Compressor, data: Bytes)
    requires InversePair(c.codec)
    ensures c.Decompress(data) == if c.codec.decode(data).Some? && c.Fits(|c.codec.decode(data).value|)
                                  then c.codec.decode(data) else None
  {
  }

  /** For any codec: nothing is decoded whose announced length is missing, or negative or too large under a limit. */
  lemma LimitIsCheckedFirst(c: Compressor, data: Bytes, out: Bytes)
    ensures c.Decompress(data) == Some(out) <==>
            && c.codec.decode(data) == Some(out) && c.codec.decodedLen(data).Some?
            && (c.maxLength > 0 ==> 0 <= c.codec.decodedLen(data).value <= c.maxLength)
  {
  }

  lemma CompressionRoundTrip(c: Compressor, data: Bytes)
    requires InversePair(c.codec)
    ensures c.Decompress(c.Compress(data)) == if c.Fits(|data|) then Some(data) else None
  {
  }

  // ----- Handlers -----

  datatype ValidationResult = ValidationAccept | ValidationReject | ValidationIgnore | ValidationUnknown(code: int)

  datatype Encoder<!M> = Encoder(encode: M -> Outcome<Bytes>, decode: Bytes -> Outcome<M>)

  datatype HandlerConfig<!M> = HandlerConfig(
    encoder: Option<Encoder<M>>,
    compressor: Option<Compressor>,
    decoder: Option<Bytes -> Outcome<M>>,
    validator: Option<(M, Peer) -> ValidationResult>,
    processor: Option<(M, Peer) -> Outcome<()>>,
    invalidPayloadHandler: bool,
    scoreParams: Option<int>)

  datatype HandlerError = NoHandler | NoDecoding

  function Validate<M>(h: HandlerConfig<M>): Option<HandlerError> {
    if h.validator.None? && h.processor.None? then Some(NoHandler)
    else if h.encoder.None? && h.decoder.None? then Some(NoDecoding)
    else None
  }

  // ----- Erasing the type -----

  function Tagged<V>(typ: TypeTag, outcome: Outcome<V>): Outcome<Any<V>> {
    match outcome
    case Done(value) => Done(Any(typ, value))
    case Failed(error) => Failed(error)
    case Crash => Crash
  }

  /** The wrapper is always there, even around an encoder that is not. */
  function WrapEncoder<V>(typ: TypeTag, encoder: Option<Encoder<V>>): Encoder<Any<V>> {
    Encoder(
      (msg: Any<V>) =>
        if msg.typ != typ then Failed("encoder type assertion failed")
        else if encoder.None? then Crash
        else encoder.value.encode(msg.value),
      (data: Bytes) => if encoder.None? then Crash else Tagged(typ, encoder.value.decode(data)))
  }

  function WrapDecoder<V>(typ: TypeTag, decoder: Option<Bytes -> Outcome<V>>, encoder: Option<Encoder<V>>)
    : Option<Bytes -> Outcome<Any<V>>>
  {
    if decoder.None? && encoder.Some? then Some((data: Bytes) => Tagged(typ, encoder.value.decode(data)))
    else if decoder.None? then None
    else Some((data: Bytes) => Tagged(typ, decoder.value(data)))
  }

  function WrapValidator<V>(typ: TypeTag, validator: Option<(V, Peer) -> ValidationResult>)
    : Option<(Any<V>, Peer) -> ValidationResult>
  {
    if validator.None? then None
    else Some((msg: Any<V>, from: Peer) =>
      if msg.typ != typ then ValidationReject else validator.value(msg.value, from))
  }

  function WrapProcessor<V>(typ: TypeTag, processor: Option<(V, Peer) -> Outcome<()>>)
    : Option<(Any<V>, Peer) -> Outcome<()>>
  {
    if processor.None? then None
    else Some((msg: Any<V>, from: Peer) =>
      if msg.typ != typ then Failed("processor type assertion failed") else processor.value(msg.value, from))
  }

  /** What registration stores; the handler for invalid payloads is not carried over. */
  function Erase<V>(typ: TypeTag, h: HandlerConfig<V>): HandlerConfig<Any<V>> {
    HandlerConfig(
      Some(WrapEncoder(typ, h.encoder)), h.compressor, WrapDecoder(typ, h.decoder, h.encoder),
      WrapValidator(typ, h.validator), WrapProcessor(typ, h.processor), false, h.scoreParams)
  }

  // ----- Publishing -----

  datatype Published = Sent(data: Bytes) | NotSent(error: string) | PublishCrash

  function Publish<M>(started: bool, handler: Option<HandlerConfig<M>>, msg: M): Published {
    if !started then NotSent("gossipsub not started")
    else if handler.None? then NotSent("no handler registered")
    else if handler.value.encoder.None? then NotSent("no encoder configured")
    else
      match handler.value.encoder.value.encode(msg)
      case Failed(error) => NotSent(error)
      case Crash => PublishCrash
      case Done(data) =>
        Sent(if handler.value.compressor.Some? then handler.value.compressor.value.Compress(data) else data)
  }

  // ----- Receiving -----

  datatype Listener = TopicListener | GlobalListener

  function Told(topicListener: bool, globalListener: bool): seq<Listener> {
    (if topicListener then [TopicListener] else []) + if globalListener then [GlobalListener] else []
  }

  function DecoderOf<M>(h: HandlerConfig<M>): Option<Bytes -> Outcome<M>> {
    if h.decoder.None? && h.encoder.Some? then Some(h.encoder.value.decode) else h.decoder
  }

  datatype Verdict = Accept | Reject | Ignore

  datatype Reason = NotDecompressed | NoDecoder | NotDecoded

  /** What the validator does with a message: it judges the decoded message, or turns the bytes away before. */
  datatype Validation<+M> =
    | Judged(message: M, verdict: Verdict)
    | TurnedAway(reason: Reason, told: seq<Listener>)
    | ValidationCrash

  function ToVerdict(result: ValidationResult): Verdict {
    match result
    case ValidationAccept => Accept
    case ValidationReject => Reject
    case ValidationIgnore => Ignore
    case ValidationUnknown(_) => Reject
  }

  /** The verdict given to the network. */
  function Final<M>(v: Validation<M>): Option<Verdict> {
    match v
    case Judged(_, verdict) => Some(verdict)
    case TurnedAway(_, _) => Some(Reject)
    case ValidationCrash => None
  }

  /** Installed only for handlers that have a validator. */
  function RunValidator<M>(h: HandlerConfig<M>, global: bool, data: Bytes, from: Peer): Validation<M>
    requires h.validator.Some?
  {
    var plain := if h.compressor.Some? then h.compressor.value.Decompress(data) else Some(data);
    if plain.None? then TurnedAway(NotDecompressed, Told(h.invalidPayloadHandler, global))
    else if DecoderOf(h).None? then TurnedAway(NoDecoder, [])
    else
      match DecoderOf(h).value(plain.value)
      case Failed(_) => TurnedAway(NotDecoded, Told(h.invalidPayloadHandler, global))
      case Crash => ValidationCrash
      case Done(message) => Judged(message, ToVerdict(h.validator.value(message, from)))
  }

  datatype Processing<+M> =
    | Processed(message: M, result: Outcome<()>)
    | NothingToDo(message: M)
    | Dropped(reason: Reason, told: seq<Listener>)
    | ProcessingCrash

  function ProcessMessage<M>(h: HandlerConfig<M>, global: bool, data: Bytes, from: Peer): Processing<M> {
    var plain := if h.compressor.Some? then h.compressor.value.Decompress(data) else Some(data);
    if plain.None? then Dropped(NotDecompressed, Told(h.invalidPayloadHandler, global))
    else if DecoderOf(h).None? then Dropped(NoDecoder, [])
    else
      match DecoderOf(h).value(plain.value)
      case Failed(_) => Dropped(NotDecoded, Told(h.invalidPayloadHandler, global))
      case Crash => ProcessingCrash
      case Done(message) =>
        if h.processor.Some? then Processed(message, h.processor.value(message, from)) else NothingToDo(message)
  }

  // ----- What a registered handler does with any bytes -----

  /** The typed message inside the bytes, if they can be opened: by the handler's own decoder if it has one. */
  function Contents<V>(h: HandlerConfig<V>, data: Bytes): Outcome<V>
    requires h.decoder.Some? || h.encoder.Some?
  {
    var plain := if h.compressor.Some? then h.compressor.value.Decompress(data) else Some(data);
    if plain.None? then Failed("not decompressed")
    else if h.decoder.Some? then h.decoder.value(plain.value)
    else h.encoder.value.decode(plain.value)
  }

  /**
   * Erasure changes nothing for a receiver: on all bytes the validator and the processor see
   * the same typed message, hand it to the typed functions, and no type assertion fails.
   */
  lemma ErasedHandlerActsTyped<V>(typ: TypeTag, h: HandlerConfig<V>, global: bool, data: Bytes, from: Peer)
    requires Validate(h) == None
    ensures DecoderOf(h).Some?
    ensures h.validator.Some? ==>
      match Contents(h, data)
      case Done(v) => RunValidator(Erase(typ, h), global, data, from)
                      == Judged(Any(typ, v), ToVerdict(h.validator.value(v, from)))
      case Failed(_) => Final(RunValidator(Erase(typ, h), global, data, from)) == Some(Reject)
                        && !RunValidator(Erase(typ, h), global, data, from).Judged?
      case Crash => RunValidator(Erase(typ, h), global, data, from) == ValidationCrash
    ensures match Contents(h, data)
            case Done(v) => ProcessMessage(Erase(typ, h), global, data, from)
                            == (if h.processor.Some? then Processed(Any(typ, v), h.processor.value(v, from))
                                else NothingToDo(Any(typ, v)))
            case Failed(_) => ProcessMessage(Erase(typ, h), global, data, from).Dropped?
            case Crash => ProcessMessage(Erase(typ, h), global, data, from) == ProcessingCrash
  {
  }

  /** Registration loses the topic's own listener for invalid payloads: only the global one can ever hear. */
  lemma OnlyTheGlobalListenerHears<V>(typ: TypeTag, h: HandlerConfig<V>, global: bool, data: Bytes, from: Peer)
    requires Validate(h) == None
    ensures var p := ProcessMessage(Erase(typ, h), global, data, from);
            p.Dropped? ==> p.told == if global then [GlobalListener] else []
    ensures h.validator.Some? ==>
      var v := RunValidator(Erase(typ, h), global, data, from);
      v.TurnedAway? ==> v.told == if global then [GlobalListener] else []
  {
  }

  /**
   * The verdict on all bytes: accepted exactly when they open to a message that the typed validator
   * accepts, ignored exactly when it ignores it, no verdict exactly when the decoder crashes, and
   * rejected in every other case, be it that the validator rejects or answers anything else or that
   * the bytes do not open.
   */
  lemma VerdictExactly<V>(typ: TypeTag, h: HandlerConfig<V>, global: bool, data: Bytes, from: Peer)
    requires Validate(h) == None && h.validator.Some?
    ensures var content := Contents(h, data);
            var final := Final(RunValidator(Erase(typ, h), global, data, from));
            && (final == Some(Accept) <==> content.Done? && h.validator.value(content.value, from) == ValidationAccept)
            && (final == Some(Ignore) <==> content.Done? && h.validator.value(content.value, from) == ValidationIgnore)
            && (final == None <==> content.Crash?)
            && (final == Some(Reject) <==>
                !content.Crash?
                && (content.Done? ==>
                      h.validator.value(content.value, from) !in {ValidationAccept, ValidationIgnore}))
  {
  }

  /** Why bytes are turned away by validator and processor alike, and that nothing else is. */
  lemma TurnedAwayExactly<V>(typ: TypeTag, h: HandlerConfig<V>, global: bool, data: Bytes, from: Peer)
    requires Validate(h) == None
    ensures var plain := if h.compressor.Some? then h.compressor.value.Decompress(data) else Some(data);
            var p := ProcessMessage(Erase(typ, h), global, data, from);
            && (p.Dropped? && p.reason == NotDecompressed <==> plain.None?)
            && (p.Dropped? && p.reason == NotDecoded <==> plain.Some? && Contents(h, data).Failed?)
            && !(p.Dropped? && p.reason == NoDecoder)
            && (h.validator.Some? ==>
                 var v := RunValidator(Erase(typ, h), global, data, from);
                 && (v.TurnedAway? <==> p.Dropped?)
                 && (v.TurnedAway? ==> v.reason == p.reason && v.told == p.told))
  {
  }

  /** A handler is valid exactly when it has something to do with a message and some way to decode one. */
  lemma ValidExactly<V>(h: HandlerConfig<V>)
    ensures Validate(h) == None <==>
            (h.validator.Some? || h.processor.Some?) && (h.encoder.Some? || h.decoder.Some?)
    ensures Validate(h) == Some(NoHandler) <==> h.validator.None? && h.processor.None?
  {
  }

  /** A message of another type never reaches the typed functions: it is rejected, and not processed. */
  lemma OtherTypesAreRefused<V>(typ: TypeTag, h: HandlerConfig<V>, msg: Any<V>, from: Peer)
    requires msg.typ != typ
    ensures h.validator.Some? ==> Erase(typ, h).validator.value(msg, from) == ValidationReject
    ensures h.processor.Some? ==> Erase(typ, h).processor.value(msg, from).Failed?
  {
  }

  /** Registration keeps what the network is told of a topic, and which of the two functions there are. */
  lemma ErasureKeeps<V>(typ: TypeTag, h: HandlerConfig<V>)
    ensures var erased := Erase(typ, h);
            && erased.scoreParams == h.scoreParams && erased.compressor == h.compressor
            && (erased.validator.Some? <==> h.validator.Some?) && (erased.processor.Some? <==> h.processor.Some?)
            && (Validate(h) == None ==> Validate(erased) == None)
  {
  }

  // ----- Main results -----

  /**
   * Bytes put on the wire for a message reach the typed validator and the typed processor as
   * that message, unless the encoded size exceeds a non-zero limit; then they are turned away
   * before the typed validator, as bytes that do not decompress.
   */
  lemma PublishedIsReceived<V>(typ: TypeTag, h: HandlerConfig<V>, v: V, raw: Bytes, global: bool, from: Peer)
    requires Validate(h) == None && h.encoder.Some? && h.encoder.value.encode(v) == Done(raw)
    requires DecoderOf(h).value(raw) == Done(v)
    requires h.compressor.Some? ==> InversePair(h.compressor.value.codec)
    ensures var sent := Publish(true, Some(Erase(typ, h)), Any(typ, v));
            && sent.Sent?
            && var fits := h.compressor.Some? ==> h.compressor.value.Fits(|raw|);
            && (h.validator.Some? ==>
                 RunValidator(Erase(typ, h), global, sent.data, from)
                 == if fits then Judged(Any(typ, v), ToVerdict(h.validator.value(v, from)))
                    else TurnedAway(NotDecompressed, Told(false, global)))
            && ProcessMessage(Erase(typ, h), global, sent.data, from)
               == if !fits then Dropped(NotDecompressed, Told(false, global))
                  else if h.processor.Some? then Processed(Any(typ, v), h.processor.value(v, from))
                  else NothingToDo(Any(typ, v))
  {
  }

  /**
   * Publishing through a registered handler: a message of another type is always refused, and one
   * of the right type crashes exactly when the handler has only a decoder or its encoder crashes.
   */
  lemma PublishOutcome<V>(typ: TypeTag, h: HandlerConfig<V>, msg: Any<V>)
    ensures Publish(true, Some(Erase(typ, h)), msg).PublishCrash? <==>
            msg.typ == typ && (h.encoder.Some? ==> h.encoder.value.encode(msg.value) == Crash)
    ensures Publish(true, Some(Erase(typ, h)), msg).Sent? <==>
            msg.typ == typ && h.encoder.Some? && h.encoder.value.encode(msg.value).Done?
    ensures !Publish(false, Some(Erase(typ, h)), msg).Sent?
    ensures forall started :: Publish<V>(started, None, msg.value).NotSent?
    ensures Publish(true, Some(Erase(typ, h)), msg) != NotSent("no encoder configured")
            || (msg.typ == typ && h.encoder.Some?
                && h.encoder.value.encode(msg.value) == Failed("no encoder configured"))
  {
  }
}

/** Registration of handlers by topic name or subnet pattern, and their lookup by map iteration. */
module Registries {
  import opened Common
  import opened Text
  import opened Topics
  import opened Pipeline

  const MAX_UINT64 := TWO_64 - 1

  // ----- Lookup in a given iteration order -----

  datatype Lookup<+H> = Found(handler: H) | NotFound | LookupCrash

  function Tried(pattern: string, name: string): Parsed {
    ParseSubnet(SubnetTopic(pattern, MAX_UINT64), name)
  }

  /** The pattern decides the lookup when it is reached: by accepting the name, or by failing outright. */
  predicate Decides(pattern: string, name: string) {
    Tried(pattern, name).Subnet? || Tried(pattern, name).Crash?
  }

  function Decision<H>(subnetHandlers: map<string, H>, pattern: string, name: string): Lookup<H>
    requires pattern in subnetHandlers
  {
    if Tried(pattern, name).Subnet? then Found(subnetHandlers[pattern])
    else if Tried(pattern, name).Crash? then LookupCrash
    else NotFound
  }

  function Search<H>(subnetHandlers: map<string, H>, order: seq<string>, name: string): Lookup<H>
    requires forall pattern <- order :: pattern in subnetHandlers
  {
    if order == [] then NotFound
    else if Decides(order[0], name) then Decision(subnetHandlers, order[0], name)
    else Search(subnetHandlers, order[1..], name)
  }

  /** One of the orders in which a map with these keys may be iterated. */
  ghost predicate IsOrder(order: seq<string>, keys: set<string>) {
    && (forall pattern :: pattern in order <==> pattern in keys)
    && (forall i: nat, j: nat :: i < j < |order| ==> order[i] != order[j])
  }

  function LookUp<H>(handlers: map<string, H>, subnetHandlers: map<string, H>, order: seq<string>,
      name: string): Lookup<H>
    requires forall pattern <- order :: pattern in subnetHandlers
  {
    if name in handlers then Found(handlers[name]) else Search(subnetHandlers, order, name)
  }

  /** The search ends with the first deciding pattern, or finds nothing when there is none. */
  lemma {:induction false} SearchFindsDecider<H>(subnetHandlers: map<string, H>, order: seq<string>, name: string)
    requires forall pattern <- order :: pattern in subnetHandlers
    ensures (exists pattern <- order :: Decides(pattern, name)) ==>
      exists pattern <- order :: Decides(pattern, name)
        && Search(subnetHandlers, order, name) == Decision(subnetHandlers, pattern, name)
    ensures (forall pattern <- order :: !Decides(pattern, name)) ==> Search(subnetHandlers, order, name) == NotFound
  {
    if order != [] && !Decides(order[0], name) {
      assert forall pattern <- order[1..] :: pattern in order;
      assert forall pattern <- order :: pattern == order[0] || pattern in order[1..];
      SearchFindsDecider(subnetHandlers, order[1..], name);
    }
  }

  // ----- When the order does not matter -----

  /** All the patterns that decide on a name decide alike. */
  ghost predicate Agreed<H(!new)>(subnetHandlers: map<string, H>, name: string) {
    forall p, q :: p in subnetHandlers && q in subnetHandlers && Decides(p, name) && Decides(q, name) ==>
      Decision(subnetHandlers, p, name) == Decision(subnetHandlers, q, name)
  }

  /** Any key can come first. */
  lemma {:induction false} OrderStartingWith(keys: set<string>, first: string)
    requires first in keys
    ensures exists order :: IsOrder(order, keys) && order != [] && order[0] == first
    decreases |keys|
  {
    var rest := keys - {first};
    if rest == {} {
      assert IsOrder([first], keys);
    } else {
      var second :| second in rest;
      OrderStartingWith(rest, second);
      var tail :| IsOrder(tail, rest) && tail != [] && tail[0] == second;
      PrependOrder(tail, rest, first, keys);
    }
  }

  lemma PrependOrder(tail: seq<string>, rest: set<string>, first: string, keys: set<string>)
    requires IsOrder(tail, rest) && first !in rest && keys == rest + {first}
    ensures IsOrder([first] + tail, keys)
  {
    var order := [first] + tail;
    forall i: nat, j: nat | i < j < |order| ensures order[i] != order[j] {
      if i == 0 {
        assert order[j] == tail[j - 1] && order[j] in tail;
      } else {
        assert order[i] == tail[i - 1] && order[j] == tail[j - 1];
      }
    }
  }

  /** The lookup of a name is the same in every iteration order exactly when its deciding patterns agree. */
  lemma OrderIndependence<H(!new)>(subnetHandlers: map<string, H>, name: string)
    ensures Agreed(subnetHandlers, name) <==>
            forall a, b :: IsOrder(a, subnetHandlers.Keys) && IsOrder(b, subnetHandlers.Keys) ==>
              Search(subnetHandlers, a, name) == Search(subnetHandlers, b, name)
  {
    if Agreed(subnetHandlers, name) {
      forall a, b | IsOrder(a, subnetHandlers.Keys) && IsOrder(b, subnetHandlers.Keys)
        ensures Search(subnetHandlers, a, name) == Search(subnetHandlers, b, name)
      {
        SearchFindsDecider(subnetHandlers, a, name);
        SearchFindsDecider(subnetHandlers, b, name);
      }
    } else {
      var p, q :| p in subnetHandlers && q in subnetHandlers && Decides(p, name) && Decides(q, name)
        && Decision(subnetHandlers, p, name) != Decision(subnetHandlers, q, name);
      OrderStartingWith(subnetHandlers.Keys, p);
      OrderStartingWith(subnetHandlers.Keys, q);
      var a :| IsOrder(a, subnetHandlers.Keys) && a != [] && a[0] == p;
      var b :| IsOrder(b, subnetHandlers.Keys) && b != [] && b[0] == q;
      assert Search(subnetHandlers, a, name) == Decision(subnetHandlers, p, name);
      assert Search(subnetHandlers, b, name) == Decision(subnetHandlers, q, name);
    }
  }

  /** No pattern's prefix begins with another's. */
  ghost predicate PrefixFree(patterns: set<string>) {
    forall p, q :: p in patterns && q in patterns && Prefix(p) <= Prefix(q) ==> p == q
  }

  /** With such patterns at most one decides on any name. */
  lemma OneDecider(patterns: set<string>, p: string, q: string, name: string)
    requires PrefixFree(patterns) && p in patterns && q in patterns && Decides(p, name) && Decides(q, name)
    ensures p == q
  {
    PrefixesCompare(Prefix(p), Prefix(q), BaseName(name));
  }

  lemma PrefixesCompare(a: string, b: string, s: string)
    requires a <= s && b <= s
    ensures a <= b || b <= a
  {
    assert a == s[..|a|] && b == s[..|b|];
  }

  /** Prefix-free registries give every name one answer, whatever the iteration order. */
  lemma PrefixFreeIsDeterministic<H(!new)>(handlers: map<string, H>, subnetHandlers: map<string, H>,
                                          a: seq<string>, b: seq<string>, name: string)
    requires PrefixFree(subnetHandlers.Keys)
    requires IsOrder(a, subnetHandlers.Keys) && IsOrder(b, subnetHandlers.Keys)
    ensures LookUp(handlers, subnetHandlers, a, name) == LookUp(handlers, subnetHandlers, b, name)
  {
    forall p, q | p in subnetHandlers && q in subnetHandlers && Decides(p, name) && Decides(q, name)
      ensures p == q
    {
      OneDecider(subnetHandlers.Keys, p, q, name);
    }
    OrderIndependence(subnetHandlers, name);
  }

  /**
   * Every subnet of a registered pattern reaches that pattern's handler, unless its full name is
   * registered by itself.
   */
  lemma SubnetReachesItsPattern<H>(handlers: map<string, H>, subnetHandlers: map<string, H>, order: seq<string>,
                                  st: SubnetTopic, subnet: nat, digest: Digest)
    requires PrefixFree(subnetHandlers.Keys) && IsOrder(order, subnetHandlers.Keys)
    requires st.pattern in subnetHandlers && OnePlaceholder(st.pattern) && '/' !in st.pattern
    requires subnet < st.maxSubnets <= MAX_UINT64
    ensures var name := TopicForSubnet(st, subnet, digest).value.name;
            LookUp(handlers, subnetHandlers, order, name)
            == Found(if name in handlers then handlers[name] else subnetHandlers[st.pattern])
  {
    var name := TopicForSubnet(st, subnet, digest).value.name;
    var wide := SubnetTopic(st.pattern, MAX_UINT64);
    TopicRoundTrip(wide, subnet, digest);
    assert Decides(st.pattern, name);
    SearchFindsDecider(subnetHandlers, order, name);
    forall p | p in subnetHandlers && Decides(p, name) ensures p == st.pattern {
      OneDecider(subnetHandlers.Keys, p, st.pattern, name);
    }
  }

  /**
   * End to end: a message published on a subnet's topic is judged and processed as itself by
   * whoever looks the topic up, in whatever order either side iterates its patterns.
   */
  lemma {:induction false} SubnetMessageIsDelivered<V(!new)>(
      handlers: map<string, HandlerConfig<Any<V>>>, subnetHandlers: map<string, HandlerConfig<Any<V>>>,
      ours: seq<string>, theirs: seq<string>, st: SubnetTopic, subnet: nat, digest: Digest,
      typ: TypeTag, h: HandlerConfig<V>, v: V, raw: Bytes, global: bool, from: Peer)
    requires PrefixFree(subnetHandlers.Keys)
    requires IsOrder(ours, subnetHandlers.Keys) && IsOrder(theirs, subnetHandlers.Keys)
    requires OnePlaceholder(st.pattern) && '/' !in st.pattern && subnet < st.maxSubnets <= MAX_UINT64
    requires st.pattern in subnetHandlers && subnetHandlers[st.pattern] == Erase(typ, h)
    requires TopicForSubnet(st, subnet, digest).value.name !in handlers
    requires Validate(h) == None && h.encoder.Some? && h.encoder.value.encode(v) == Done(raw)
    requires DecoderOf(h).value(raw) == Done(v)
    requires h.compressor.Some? ==> InversePair(h.compressor.value.codec) && h.compressor.value.Fits(|raw|)
    ensures var name := TopicForSubnet(st, subnet, digest).value.name;
            var (sender, receiver) := (LookUp(handlers, subnetHandlers, ours, name),
                                       LookUp(handlers, subnetHandlers, theirs, name));
            && sender.Found? && receiver.Found?
            && (receiver.handler.validator.Some? <==> h.validator.Some?)
            && var sent := Publish(true, Some(sender.handler), Any(typ, v));
            && sent.Sent?
            && (h.validator.Some? ==>
                 RunValidator(receiver.handler, global, sent.data, from)
                 == Judged(Any(typ, v), ToVerdict(h.validator.value(v, from))))
            && ProcessMessage(receiver.handler, global, sent.data, from)
               == (if h.processor.Some? then Processed(Any(typ, v), h.processor.value(v, from))
                   else NothingToDo(Any(typ, v)))
  {
    SubnetReachesItsPattern(handlers, subnetHandlers, ours, st, subnet, digest);
    SubnetReachesItsPattern(handlers, subnetHandlers, theirs, st, subnet, digest);
    PublishedIsReceived(typ, h, v, raw, global, from);
  }

  /** Without a bound of its own a pattern takes every number below 2^64 - 1, the largest one not included. */
  lemma TriedExactly(pattern: string, subnet: nat)
    requires OnePlaceholder(pattern) && '/' !in pattern
    ensures Tried(pattern, Format(pattern, subnet)) == Subnet(subnet) <==> subnet < 0xFFFF_FFFF_FFFF_FFFF
  {
    FormatSlash(pattern, subnet);
    DecimalIsNumber(subnet);
    assert ROOT[0] == '/';
    MiddleDecides(SubnetTopic(pattern, MAX_UINT64), Decimal(subnet));
  }

  /** Two patterns that both accept a name hand it to either of their handlers, as the order goes. */
  lemma OverlapMatters<H>(p: string, q: string, name: string, one: H, other: H)
    requires p != q && Tried(p, name).Subnet? && Tried(q, name).Subnet?
    ensures var handlers := map[p := one, q := other];
            && IsOrder([p, q], handlers.Keys) && Search(handlers, [p, q], name) == Found(one)
            && IsOrder([q, p], handlers.Keys) && Search(handlers, [q, p], name) == Found(other)
  {
    assert Decides([p, q][0], name) && Decides([q, p][0], name);
  }

  /** Such patterns exist among well-formed ones: both of these accept "a12". */
  lemma OverlapHappens()
    ensures Tried("a" + PLACEHOLDER, "a" + "12") == Subnet(12)
    ensures Tried("a1" + PLACEHOLDER, "a1" + "2") == Subnet(2)
    ensures "a" + "12" == "a1" + "2" == "a12"
  {
    DecimalIsNumber(12);
    DecimalIsNumber(2);
    assert Decimal(12) == "12";
    ReadAlone("a", Decimal(12), 12);
    ReadAlone("a1", Decimal(2), 2);
  }

  lemma ReadAlone(prefix: string, digits: string, subnet: nat)
    requires '%' !in prefix && '/' !in prefix && digits != "" && AllDigits(digits) && Number(digits) == subnet < 100
    ensures Tried(prefix + PLACEHOLDER, prefix + digits) == Subnet(subnet)
  {
    PatternOf(prefix, "");
    assert prefix + PLACEHOLDER + "" == prefix + PLACEHOLDER;
    assert prefix + (digits + "") == prefix + digits;
    var st := SubnetTopic(prefix + PLACEHOLDER, MAX_UINT64);
    ReadsIsParsed(st, prefix + digits, digits, subnet);
    assert ROOT[0] == '/';
    assert '/' !in prefix + digits;
  }

  // ----- The registry -----

  datatype RegistryError =
    | NilRegistry
    | NilTopic
    | NilHandler
    | InvalidHandler(error: HandlerError)
    | AlreadyRegistered(name: string)

  /** Why a registration under a name is refused, if it is. */
  function Refusal<V>(registered: set<string>, name: Option<string>, handler: Option<HandlerConfig<V>>)
    : (error: Option<RegistryError>)
    ensures error.None? <==>
            name.Some? && handler.Some? && Validate(handler.value).None? && name.value !in registered
    ensures error == Some(NilTopic) <==> name.None?
    ensures error == Some(NilHandler) <==> name.Some? && handler.None?
    ensures name.Some? ==>
      (error == Some(AlreadyRegistered(name.value))
       <==> name.value in registered && handler.Some? && Validate(handler.value).None?)
  {
    if name.None? then Some(NilTopic)
    else if handler.None? then Some(NilHandler)
    else if Validate(handler.value).Some? then Some(InvalidHandler(Validate(handler.value).value))
    else if name.value in registered then Some(AlreadyRegistered(name.value))
    else None
  }

  class Registry<V(!new)> {
    var handlers: map<string, HandlerConfig<Any<V>>>
    var subnetHandlers: map<string, HandlerConfig<Any<V>>>
    /** The names and the patterns registered since the last Clear, in the order of their registration. */
    ghost var topics: seq<string>
    ghost var patterns: seq<string>

    ghost predicate Valid()
      reads this
    {
      IsOrder(topics, handlers.Keys) && IsOrder(patterns, subnetHandlers.Keys)
    }

    constructor ()
      ensures Valid() && topics == [] && patterns == []
      ensures handlers == map[] && subnetHandlers == map[]
    {
      handlers, subnetHandlers := map[], map[];
      topics, patterns := [], [];
    }

    /** The exact name first, then the patterns in whatever order the map yields them. */
    method GetHandler(topicName: string) returns (result: Lookup<HandlerConfig<Any<V>>>)
      ensures exists order :: IsOrder(order, subnetHandlers.Keys)
                && result == LookUp(handlers, subnetHandlers, order, topicName)
    {
      if topicName in handlers {
        assert IsOrder(AnyOrder(subnetHandlers.Keys), subnetHandlers.Keys);
        return Found(handlers[topicName]);
      }
      var todo := subnetHandlers.Keys;
      ghost var seen: seq<string> := [];
      while todo != {}
        invariant Undecided(seen, todo, subnetHandlers.Keys, topicName)
      {
        var pattern :| pattern in todo;
        var parsed := ParseSubnet(SubnetTopic(pattern, MAX_UINT64), topicName);
        if parsed.Subnet? || parsed.Crash? {
          ghost var order := OrderReaching(subnetHandlers, seen, todo, pattern, topicName);
          return if parsed.Subnet? then Found(subnetHandlers[pattern]) else LookupCrash;
        }
        UndecidedStep(seen, todo, subnetHandlers.Keys, pattern, topicName);
        seen := seen + [pattern];
        todo := todo - {pattern};
      }
      SearchFindsDecider(subnetHandlers, seen, topicName);
      assert IsOrder(seen, subnetHandlers.Keys);
      result := NotFound;
    }

    /** Nothing is answered when the lookup crashes. */
    method HasHandler(topicName: string) returns (has: Option<bool>)
      ensures exists order :: IsOrder(order, subnetHandlers.Keys)
                && has == match LookUp(handlers, subnetHandlers, order, topicName)
                          case Found(_) => Some(true) case NotFound => Some(false) case LookupCrash => None
    {
      var result := GetHandler(topicName);
      has := if result.LookupCrash? then None else Some(result.Found?);
    }

    method Clear()
      modifies this
      ensures Valid() && topics == [] && patterns == []
      ensures handlers == map[] && subnetHandlers == map[]
    {
      handlers, subnetHandlers := map[], map[];
      topics, patterns := [], [];
    }

    /** The number of registrations by name that were accepted since the last Clear. */
    method TopicCount() returns (n: nat)
      requires Valid()
      ensures n == |topics|
    {
      OrderLength(topics, handlers.Keys);
      n := |handlers|;
    }

    /** The number of registrations by pattern that were accepted since the last Clear. */
    method SubnetPatternCount() returns (n: nat)
      requires Valid()
      ensures n == |patterns|
    {
      OrderLength(patterns, subnetHandlers.Keys);
      n := |subnetHandlers|;
    }
  }

  method Register<V(!new)>(r: Registry?<V>, topic: Option<Topic>, typ: TypeTag, handler: Option<HandlerConfig<V>>)
    returns (error: Option<RegistryError>)
    requires r != null ==> r.Valid()
    modifies r
    ensures r == null ==> error == Some(NilRegistry)
    ensures r != null ==>
      && r.Valid()
      && error == Refusal(old(r.handlers).Keys, if topic.Some? then Some(topic.value.name) else None, handler)
      && r.subnetHandlers == old(r.subnetHandlers) && r.patterns == old(r.patterns)
      && r.topics == old(r.topics) + (if error.Some? then [] else [topic.value.name])
      && r.handlers == if error.Some? then old(r.handlers)
                       else old(r.handlers)[topic.value.name := Erase(typ, handler.value)]
  {
    if r == null {
      return Some(NilRegistry);
    }
    if topic.None? {
      return Some(NilTopic);
    }
    if handler.None? {
      return Some(NilHandler);
    }
    var invalid := Validate(handler.value);
    if invalid.Some? {
      return Some(InvalidHandler(invalid.value));
    }
    var topicName := topic.value.name;
    if topicName in r.handlers {
      return Some(AlreadyRegistered(topicName));
    }
    AppendOrder(r.topics, r.handlers.Keys, topicName);
    r.handlers := r.handlers[topicName := Erase(typ, handler.value)];
    r.topics := r.topics + [topicName];
    error := None;
  }

  method RegisterSubnet<V(!new)>(r: Registry?<V>, subnetTopic: Option<SubnetTopic>, typ: TypeTag,
                                 handler: Option<HandlerConfig<V>>)
    returns (error: Option<RegistryError>)
    requires r != null ==> r.Valid()
    modifies r
    ensures r == null ==> error == Some(NilRegistry)
    ensures r != null ==>
      && r.Valid()
      && error == Refusal(old(r.subnetHandlers).Keys,
                          if subnetTopic.Some? then Some(subnetTopic.value.pattern) else None, handler)
      && r.handlers == old(r.handlers) && r.topics == old(r.topics)
      && r.patterns == old(r.patterns) + (if error.Some? then [] else [subnetTopic.value.pattern])
      && r.subnetHandlers == if error.Some? then old(r.subnetHandlers)
                             else old(r.subnetHandlers)[subnetTopic.value.pattern := Erase(typ, handler.value)]
  {
    if r == null {
      return Some(NilRegistry);
    }
    if subnetTopic.None? {
      return Some(NilTopic);
    }
    if handler.None? {
      return Some(NilHandler);
    }
    var invalid := Validate(handler.value);
    if invalid.Some? {
      return Some(InvalidHandler(invalid.value));
    }
    var pattern := subnetTopic.value.pattern;
    if pattern in r.subnetHandlers {
      return Some(AlreadyRegistered(pattern));
    }
    AppendOrder(r.patterns, r.subnetHandlers.Keys, pattern);
    r.subnetHandlers := r.subnetHandlers[pattern := Erase(typ, handler.value)];
    r.patterns := r.patterns + [pattern];
    error := None;
  }

  // ----- Orders built by the iteration -----

  ghost function AnyOrder(keys: set<string>): (order: seq<string>)
    ensures IsOrder(order, keys)
  {
    if keys == {} then []
    else
      var first :| first in keys;
      OrderStartingWith(keys, first);
      var order :| IsOrder(order, keys) && order != [] && order[0] == first;
      order
  }

  /** Where the iteration stands: the keys seen, in order, decide nothing; the others are to do. */
  ghost predicate Undecided(seen: seq<string>, todo: set<string>, keys: set<string>, name: string) {
    todo <= keys && IsOrder(seen, keys - todo) && forall pattern <- seen :: !Decides(pattern, name)
  }

  lemma AppendOrder(order: seq<string>, keys: set<string>, last: string)
    requires IsOrder(order, keys) && last !in keys
    ensures IsOrder(order + [last], keys + {last})
  {
    var more := order + [last];
    forall i: nat, j: nat | i < j < |more| ensures more[i] != more[j] {
      assert more[i] == order[i] && order[i] in order;
    }
  }

  lemma {:induction false} OrderLength(order: seq<string>, keys: set<string>)
    requires IsOrder(order, keys)
    ensures |order| == |keys|
  {
    if order == [] {
      assert keys == {};
    } else {
      var front, last := order[..|order| - 1], order[|order| - 1];
      assert forall i: nat :: i < |front| ==> front[i] == order[i] && order[i] != order[|front|];
      assert forall pattern :: pattern in front <==> pattern in order && pattern != last;
      OrderLength(front, keys - {last});
    }
  }

  lemma UndecidedStep(seen: seq<string>, todo: set<string>, keys: set<string>, pattern: string, name: string)
    requires Undecided(seen, todo, keys, name) && pattern in todo && !Decides(pattern, name)
    ensures Undecided(seen + [pattern], todo - {pattern}, keys, name)
  {
    AppendOrder(seen, keys - todo, pattern);
    assert keys - (todo - {pattern}) == (keys - todo) + {pattern};
  }

  /** An order that continues what was seen with the pattern now at hand. */
  lemma OrderReaching<H>(subnetHandlers: map<string, H>, seen: seq<string>, todo: set<string>, pattern: string,
      name: string)
    returns (order: seq<string>)
    requires Undecided(seen, todo, subnetHandlers.Keys, name) && pattern in todo && Decides(pattern, name)
    ensures IsOrder(order, subnetHandlers.Keys)
    ensures Search(subnetHandlers, order, name) == Decision(subnetHandlers, pattern, name)
  {
    var tail := [pattern] + AnyOrder(todo - {pattern});
    order := seen + tail;
    JoinOrders(seen, pattern, AnyOrder(todo - {pattern}), subnetHandlers.Keys, todo);
    SearchSkips(subnetHandlers, seen, tail, name);
  }

  lemma JoinOrders(seen: seq<string>, pattern: string, rest: seq<string>, keys: set<string>, todo: set<string>)
    requires todo <= keys && pattern in todo && IsOrder(seen, keys - todo) && IsOrder(rest, todo - {pattern})
    ensures IsOrder(seen + ([pattern] + rest), keys)
  {
    var tail := [pattern] + rest;
    PrependOrder(rest, todo - {pattern}, pattern, todo);
    var order := seen + tail;
    forall i: nat, j: nat | i < j < |order| ensures order[i] != order[j] {
      if j < |seen| {
        assert order[i] == seen[i] && order[j] == seen[j];
      } else if i < |seen| {
        assert order[i] in seen && order[j] == tail[j - |seen|] && order[j] in tail;
      } else {
        assert order[i] == tail[i - |seen|] && order[j] == tail[j - |seen|];
      }
    }
  }

  lemma {:induction false} SearchSkips<H>(subnetHandlers: map<string, H>, seen: seq<string>, tail: seq<string>,
      name: string)
    requires forall pattern <- seen + tail :: pattern in subnetHandlers
    requires forall pattern <- seen :: !Decides(pattern, name)
    ensures (forall pattern <- tail :: pattern in seen + tail)
    ensures Search(subnetHandlers, seen + tail, name) == Search(subnetHandlers, tail, name)
  {
    forall pattern <- tail ensures pattern in seen + tail {
    }
    if seen == [] {
      assert seen + tail == tail;
    } else {
      assert (seen + tail)[0] == seen[0] && (seen + tail)[1..] == seen[1..] + tail;
      assert seen[0] in seen;
      SearchSkips(subnetHandlers, seen[1..], tail, name);
    }
  }
}

/**
 * The manager of subnet subscriptions. First the manager as a value, over any kind of
 * subscription identity, and what holds in all its runs; then the classes that update in place.
 */
module Subscriptions {
  import opened Common

  // ----- The manager as a value -----

  datatype Op<S> =
    | Add(subnet: nat, subscription: Option<S>)
    | Remove(subnet: nat)
    | Set(subscriptions: map<nat, Option<S>>)
    | Clear
    | CancelDirectly(target: S)

  predicate Accepted<S>(maxSubnets: nat, op: Op<S>) {
    match op
    case Add(subnet, subscription) => subscription.Some? && subnet < maxSubnets
    case Set(subscriptions) => forall subnet <- subscriptions :: subnet < maxSubnets
    case _ => true
  }

  /** The entries of a map that are not nil. */
  function NonNil<S>(subscriptions: map<nat, Option<S>>): map<nat, S> {
    map subnet | subnet in subscriptions && subscriptions[subnet].Some? :: subscriptions[subnet].value
  }

  function After<S>(maxSubnets: nat, held: map<nat, S>, op: Op<S>): map<nat, S> {
    if !Accepted(maxSubnets, op) then held
    else
      match op
      case Add(subnet, subscription) => held[subnet := subscription.value]
      case Remove(subnet) => held - {subnet}
      case Set(subscriptions) => NonNil(subscriptions)
      case Clear => map[]
      case CancelDirectly(_) => held
  }

  /** The subscriptions an operation cancels; only the keys decide what Set drops. */
  function Dropped<S(==)>(maxSubnets: nat, held: map<nat, S>, op: Op<S>): set<S> {
    if !Accepted(maxSubnets, op) then {}
    else
      match op
      case Add(subnet, _) => if subnet in held then {held[subnet]} else {}
      case Remove(subnet) => if subnet in held then {held[subnet]} else {}
      case Set(subscriptions) => set subnet | subnet in held && subnet !in subscriptions :: held[subnet]
      case Clear => held.Values
      case CancelDirectly(subscription) => {subscription}
  }

  /** The cancel function of a subscription fires when it turns from live to cancelled. */
  datatype State<S> = State(held: map<nat, S>, cancelled: set<S>, fired: multiset<S>)

  function Next<S(==)>(maxSubnets: nat, s: State<S>, op: Op<S>): State<S> {
    var dropped := Dropped(maxSubnets, s.held, op);
    State(After(maxSubnets, s.held, op), s.cancelled + dropped, s.fired + multiset(dropped - s.cancelled))
  }

  function Run<S(==)>(maxSubnets: nat, ops: seq<Op<S>>): State<S> {
    if ops == [] then State(map[], {}, multiset{})
    else Next(maxSubnets, Run(maxSubnets, ops[..|ops| - 1]), ops[|ops| - 1])
  }

  // ----- What holds in all runs -----

  /** Subnets stay below the maximum, and each cancel function has fired once if cancelled and else never. */
  lemma {:induction false} RunIsSound<S>(maxSubnets: nat, ops: seq<Op<S>>, x: S)
    ensures forall subnet <- Run(maxSubnets, ops).held :: subnet < maxSubnets
    ensures Run(maxSubnets, ops).fired[x] == if x in Run(maxSubnets, ops).cancelled then 1 else 0
  {
    if ops != [] {
      RunIsSound(maxSubnets, ops[..|ops| - 1], x);
    }
  }

  /** Cancellation is permanent. */
  lemma {:induction false} CancelledForGood<S>(maxSubnets: nat, ops: seq<Op<S>>, more: seq<Op<S>>)
    ensures Run(maxSubnets, ops).cancelled <= Run(maxSubnets, ops + more).cancelled
  {
    if more == [] {
      assert ops + more == ops;
    } else {
      CancelledForGood(maxSubnets, ops, more[..|more| - 1]);
      assert (ops + more)[..|ops + more| - 1] == ops + more[..|more| - 1];
    }
  }

  /**
   * A held subscription is never lost, that is neither held nor cancelled afterwards, except by a
   * successful Set whose map has all its keys, gives it back at none of them and names it nowhere else.
   */
  lemma LostExactly<S>(maxSubnets: nat, s: State<S>, op: Op<S>, x: S)
    requires x in s.held.Values && x !in s.cancelled
    ensures var t := Next(maxSubnets, s, op);
            x !in t.held.Values && x !in t.cancelled <==>
            && op.Set? && Accepted(maxSubnets, op)
            && (forall subnet <- s.held :: s.held[subnet] == x ==> subnet in op.subscriptions)
            && (forall subnet <- op.subscriptions :: op.subscriptions[subnet] != Some(x))
  {
    var t := Next(maxSubnets, s, op);
    var key :| key in s.held && s.held[key] == x;
    match op {
      case Set(subscriptions) =>
        if Accepted(maxSubnets, op) {
          HeldAfterSet(subscriptions, x);
        }
      case Add(subnet, subscription) =>
        if Accepted(maxSubnets, op) && subnet != key {
          assert t.held[key] == x;
        }
      case Remove(subnet) =>
        if subnet != key {
          assert t.held[key] == x;
        }
      case _ =>
    }
  }

  /** It happens: replacing one subscription by another at its subnet forgets the first. */
  lemma ReplacingLoses<S>(maxSubnets: nat, x: S, y: S)
    requires maxSubnets > 0 && x != y
    ensures var s := Run(maxSubnets, [Add(0, Some(x)), Set(map[0 := Some(y)])]);
            s.held == map[0 := y] && x !in s.cancelled
  {
    var one: seq<Op<S>> := [Add(0, Some(x))];
    var two: seq<Op<S>> := [Add(0, Some(x)), Set(map[0 := Some(y)])];
    assert one[..0] == [] && two[..1] == one;
    assert Run(maxSubnets, one) == State(map[0 := x], {}, multiset{});
    assert NonNil(map[0 := Some(y)]) == map[0 := y];
  }

  lemma HeldAfterSet<S>(subscriptions: map<nat, Option<S>>, x: S)
    ensures x in NonNil(subscriptions).Values <==> exists subnet <- subscriptions :: subscriptions[subnet] == Some(x)
  {
    if x in NonNil(subscriptions).Values {
      var subnet :| subnet in NonNil(subscriptions) && NonNil(subscriptions)[subnet] == x;
      assert subscriptions[subnet] == Some(x);
    }
    forall subnet | subnet in subscriptions && subscriptions[subnet] == Some(x)
      ensures x in NonNil(subscriptions).Values
    {
      assert NonNil(subscriptions)[subnet] == x;
    }
  }

  // ----- When everything held is live -----

  /** A subscription held at a subnet is held at no other. */
  predicate OnlyThere<S(==)>(held: map<nat, S>, subnet: nat)
    requires subnet in held
  {
    forall other <- held :: held[other] == held[subnet] ==> other == subnet
  }

  predicate Live<S(==)>(s: State<S>) {
    forall subnet <- s.held :: s.held[subnet] !in s.cancelled
  }

  /**
   * What a caller can check before an operation: it hands over nothing cancelled or about to be
   * dropped, and drops nothing that stays held elsewhere.
   */
  predicate Safe<S(==)>(maxSubnets: nat, s: State<S>, op: Op<S>) {
    Accepted(maxSubnets, op) ==>
      match op
      case Add(subnet, subscription) =>
        && subscription.value !in s.cancelled
        && (subnet in s.held ==> s.held[subnet] != subscription.value && OnlyThere(s.held, subnet))
      case Remove(subnet) => subnet in s.held ==> OnlyThere(s.held, subnet)
      case Set(subscriptions) =>
        forall subnet <- subscriptions :: subscriptions[subnet].Some? ==>
          && subscriptions[subnet].value !in s.cancelled
          && (forall other <- s.held :: s.held[other] == subscriptions[subnet].value ==> other in subscriptions)
      case Clear => true
      case CancelDirectly(target) => forall subnet <- s.held :: s.held[subnet] != target
  }

  /** From a state in which everything held is live, that is so afterwards exactly when the operation is safe. */
  lemma StaysLiveExactly<S>(maxSubnets: nat, s: State<S>, op: Op<S>)
    requires Live(s)
    ensures Live(Next(maxSubnets, s, op)) <==> Safe(maxSubnets, s, op)
  {
    if Accepted(maxSubnets, op) {
      match op {
        case Add(subnet, subscription) => AddStaysLive(maxSubnets, s, subnet, subscription.value);
        case Remove(subnet) => RemoveStaysLive(maxSubnets, s, subnet);
        case Set(subscriptions) => SetStaysLive(maxSubnets, s, subscriptions);
        case _ =>
      }
    }
  }

  lemma AddStaysLive<S>(maxSubnets: nat, s: State<S>, subnet: nat, x: S)
    requires Live(s) && subnet < maxSubnets
    ensures Live(Next(maxSubnets, s, Add(subnet, Some(x)))) <==> Safe(maxSubnets, s, Add(subnet, Some(x)))
  {
    var t := Next(maxSubnets, s, Add(subnet, Some(x)));
    assert t.held[subnet] == x;
    if subnet in s.held {
      assert forall other <- s.held :: other != subnet ==> other in t.held && t.held[other] == s.held[other];
    }
  }

  lemma RemoveStaysLive<S>(maxSubnets: nat, s: State<S>, subnet: nat)
    requires Live(s)
    ensures Live(Next(maxSubnets, s, Remove(subnet))) <==> Safe(maxSubnets, s, Remove(subnet))
  {
    var t := Next(maxSubnets, s, Remove(subnet));
    assert forall other <- s.held :: other != subnet ==> other in t.held && t.held[other] == s.held[other];
  }

  lemma SetStaysLive<S>(maxSubnets: nat, s: State<S>, subscriptions: map<nat, Option<S>>)
    requires Live(s) && Accepted(maxSubnets, Op<S>.Set(subscriptions))
    ensures Live(Next(maxSubnets, s, Set(subscriptions))) <==> Safe(maxSubnets, s, Set(subscriptions))
  {
    var t := Next(maxSubnets, s, Set(subscriptions));
    var dropped := Dropped(maxSubnets, s.held, Op<S>.Set(subscriptions));
    forall x
      ensures x in dropped <==> exists other <- s.held :: s.held[other] == x && other !in subscriptions
    {
    }
    forall subnet | subnet in subscriptions && subscriptions[subnet].Some?
      ensures subnet in t.held && t.held[subnet] == subscriptions[subnet].value
    {
    }
  }

  /** Everything held was live in every state of a run. */
  predicate LiveThroughout<S(==)>(maxSubnets: nat, ops: seq<Op<S>>) {
    forall n: nat :: n <= |ops| ==> Live(Run(maxSubnets, ops[..n]))
  }

  /** Every operation of a run was safe in the state it found. */
  predicate SafeThroughout<S(==)>(maxSubnets: nat, ops: seq<Op<S>>) {
    forall n: nat :: n < |ops| ==> Safe(maxSubnets, Run(maxSubnets, ops[..n]), ops[n])
  }

  lemma LiveOneMore<S>(maxSubnets: nat, front: seq<Op<S>>, op: Op<S>)
    ensures var ops := front + [op];
            LiveThroughout(maxSubnets, ops) <==> LiveThroughout(maxSubnets, front) && Live(Run(maxSubnets, ops))
  {
    var ops := front + [op];
    assert forall n: nat :: n <= |front| ==> ops[..n] == front[..n];
    assert ops[..|ops|] == ops;
    if LiveThroughout(maxSubnets, ops) {
      forall n: nat | n <= |front| ensures Live(Run(maxSubnets, front[..n])) {
        assert Live(Run(maxSubnets, ops[..n]));
      }
    }
  }

  lemma SafeOneMore<S>(maxSubnets: nat, front: seq<Op<S>>, op: Op<S>)
    ensures var ops := front + [op];
            SafeThroughout(maxSubnets, ops)
            <==> SafeThroughout(maxSubnets, front) && Safe(maxSubnets, Run(maxSubnets, front), op)
  {
    var ops := front + [op];
    assert forall n: nat :: n <= |front| ==> ops[..n] == front[..n];
    assert ops[..|front|] == front;
    if SafeThroughout(maxSubnets, ops) {
      forall n: nat | n < |front| ensures Safe(maxSubnets, Run(maxSubnets, front[..n]), front[n]) {
        assert Safe(maxSubnets, Run(maxSubnets, ops[..n]), ops[n]);
      }
      assert Safe(maxSubnets, Run(maxSubnets, ops[..|front|]), ops[|front|]);
    }
  }

  /** In all states of a run everything held is live exactly when every operation was safe in its state. */
  lemma {:induction false} HeldIsLive<S>(maxSubnets: nat, ops: seq<Op<S>>)
    ensures LiveThroughout(maxSubnets, ops) <==> SafeThroughout(maxSubnets, ops)
  {
    if ops == [] {
      assert ops[..0] == ops;
    } else {
      var front, op := ops[..|ops| - 1], ops[|ops| - 1];
      assert ops == front + [op];
      HeldIsLive(maxSubnets, front);
      LiveOneMore(maxSubnets, front, op);
      SafeOneMore(maxSubnets, front, op);
      if LiveThroughout(maxSubnets, front) {
        assert front[..|front|] == front;
        StaysLiveExactly(maxSubnets, Run(maxSubnets, front), op);
      }
    }
  }

  /** An unsafe operation: adding a subscription again at its own subnet cancels what is then held. */
  lemma AddingAgainKills<S>(maxSubnets: nat, x: S)
    requires maxSubnets > 0
    ensures var s := Run(maxSubnets, [Add(0, Some(x)), Add(0, Some(x))]);
            s.held == map[0 := x] && x in s.cancelled
  {
    var one := [Add(0, Some(x))];
    var two := [Add(0, Some(x)), Add(0, Some(x))];
    assert one[..0] == [] && two[..1] == one;
    assert Run(maxSubnets, one).held == map[0 := x];
  }

  // ----- Subscriptions updated in place -----

  class Subscription {
    const topic: string
    const hasCancel: bool
    var cancelled: bool
    /** How often the cancel function was called. */
    ghost var fired: nat

    constructor (topic: string, hasCancel: bool)
      ensures this.topic == topic && this.hasCancel == hasCancel && !cancelled && Sound()
    {
      this.topic := topic;
      this.hasCancel := hasCancel;
      cancelled := false;
      fired := 0;
    }

    ghost predicate Sound()
      reads this
    {
      fired == if cancelled && hasCancel then 1 else 0
    }
  }

  /** Cancelling is safe for nil and safe to repeat. */
  method Cancel(s: Subscription?)
    requires s != null ==> s.Sound()
    modifies s
    ensures s != null ==> s.Sound() && s.cancelled
  {
    if s == null {
      return;
    }
    if !s.cancelled {
      s.cancelled := true;
      if s.hasCancel {
        s.fired := s.fired + 1;
      }
    }
  }

  /** For a subscription with a cancel function the answer tells whether that function was called. */
  method IsCancelled(s: Subscription?) returns (cancelled: bool)
    ensures s == null ==> cancelled
    ensures s != null ==> (cancelled <==> s.cancelled)
    ensures s != null && s.Sound() && s.hasCancel ==> s.fired == if cancelled then 1 else 0
    ensures s != null && s.Sound() && !s.hasCancel ==> s.fired == 0
  {
    cancelled := if s == null then true else s.cancelled;
  }

  datatype SubnetError = NilSubscription | SubnetTooLarge

  /** The nil entries of a map, made explicit. */
  function Optional(subscriptions: map<nat, Subscription?>): map<nat, Option<Subscription>> {
    map subnet | subnet in subscriptions ::
      if subscriptions[subnet] == null then None else Some(subscriptions[subnet])
  }

  /** Of these subscriptions exactly the dropped ones are cancelled in addition; what fired follows from that. */
  twostate predicate CancelsExactly(among: set<Subscription>, dropped: set<Subscription>)
    reads among
  {
    forall s <- among :: s.Sound() && (s.cancelled <==> old(s.cancelled) || s in dropped)
  }

  /** A sequence that names each member of a set once and nothing else. */
  ghost predicate Lists(names: seq<nat>, members: set<nat>) {
    && (forall n :: n in names <==> n in members)
    && (forall i: nat, j: nat :: i < j < |names| ==> names[i] != names[j])
    && |names| == |members|
  }

  lemma OneFewer(live: set<nat>, todo: set<nat>, n: nat)
    requires n in todo
    ensures live - (todo - {n}) == (live - todo) + if n in live then {n} else {}
  {
  }

  lemma CountOneMore(live: set<nat>, todo: set<nat>, n: nat)
    requires n in todo
    ensures |live - (todo - {n})| == |live - todo| + if n in live then 1 else 0
  {
    OneFewer(live, todo, n);
  }

  lemma ListOneMore(names: seq<nat>, live: set<nat>, todo: set<nat>, n: nat)
    requires Lists(names, live - todo) && n in todo
    ensures Lists(if n in live then names + [n] else names, live - (todo - {n}))
  {
    OneFewer(live, todo, n);
    if n in live {
      ListsOneMore(names, live - todo, n);
    }
  }

  lemma ListsOneMore(names: seq<nat>, members: set<nat>, n: nat)
    requires Lists(names, members) && n !in members
    ensures Lists(names + [n], members + {n})
  {
    var more := names + [n];
    forall i: nat, j: nat | i < j < |more| ensures more[i] != more[j] {
      assert more[i] == names[i] && more[i] in names;
    }
  }

  class SubnetSubscription {
    const maxSubnets: nat
    var subscriptions: map<nat, Subscription>

    ghost predicate Valid()
      reads this, subscriptions.Values
    {
      (forall subnet <- subscriptions :: subnet < maxSubnets) && (forall s <- subscriptions.Values :: s.Sound())
    }

    constructor (maxSubnets: nat)
      ensures Valid() && this.maxSubnets == maxSubnets && subscriptions == map[]
    {
      this.maxSubnets := maxSubnets;
      subscriptions := map[];
    }

    method Add(subnet: nat, subscription: Subscription?) returns (error: Option<SubnetError>)
      requires Valid() && (subscription != null ==> subscription.Sound())
      modifies this, subscriptions.Values
      ensures Valid()
      ensures error == if subscription == null then Some(NilSubscription)
                       else if subnet >= maxSubnets then Some(SubnetTooLarge) else None
      ensures var op := Op.Add(subnet, if subscription == null then None else Some(subscription));
              && (error.None? <==> Accepted(maxSubnets, op))
              && subscriptions == After(maxSubnets, old(subscriptions), op)
              && CancelsExactly(old(subscriptions.Values), Dropped(maxSubnets, old(subscriptions), op))
    {
      if subscription == null {
        return Some(NilSubscription);
      }
      if subnet >= maxSubnets {
        return Some(SubnetTooLarge);
      }
      if subnet in subscriptions {
        Cancel(subscriptions[subnet]);
      }
      subscriptions := subscriptions[subnet := subscription];
      error := None;
    }

    method Remove(subnet: nat) returns (removed: bool)
      requires Valid()
      modifies this, subscriptions.Values
      ensures Valid() && (removed <==> subnet in old(subscriptions))
      ensures subscriptions == After(maxSubnets, old(subscriptions), Op.Remove(subnet))
      ensures CancelsExactly(old(subscriptions.Values), Dropped(maxSubnets, old(subscriptions), Op.Remove(subnet)))
    {
      if subnet !in subscriptions {
        return false;
      }
      Cancel(subscriptions[subnet]);
      subscriptions := subscriptions - {subnet};
      removed := true;
    }

    method Set(wanted: map<nat, Subscription?>) returns (error: Option<SubnetError>)
      requires Valid() && forall s <- wanted.Values :: s != null ==> s.Sound()
      modifies this, subscriptions.Values
      ensures Valid()
      ensures error == if Accepted(maxSubnets, Op.Set(Optional(wanted))) then None else Some(SubnetTooLarge)
      ensures subscriptions == After(maxSubnets, old(subscriptions), Op.Set(Optional(wanted)))
      ensures CancelsExactly(old(subscriptions.Values), Dropped(maxSubnets, old(subscriptions),
          Op.Set(Optional(wanted))))
    {
      var todo := wanted.Keys;
      while todo != {}
        invariant todo <= wanted.Keys
        invariant forall subnet :: subnet in wanted && subnet !in todo ==> subnet < maxSubnets
      {
        var subnet :| subnet in todo;
        if subnet >= maxSubnets {
          assert subnet in Optional(wanted);
          return Some(SubnetTooLarge);
        }
        todo := todo - {subnet};
      }
      assert Optional(wanted).Keys == wanted.Keys;
      CancelMissing(wanted.Keys);
      var newSubs: map<nat, Subscription> := map[];
      todo := wanted.Keys;
      while todo != {}
        invariant todo <= wanted.Keys
        invariant newSubs == map subnet | subnet in wanted.Keys - todo && wanted[subnet] != null :: wanted[subnet]
      {
        var subnet :| subnet in todo;
        if wanted[subnet] != null {
          newSubs := newSubs[subnet := wanted[subnet]];
        }
        todo := todo - {subnet};
      }
      subscriptions := newSubs;
      error := None;
    }

    /** The loop that cancels what is held at the keys outside a set. */
    method CancelMissing(kept: set<nat>)
      requires Valid()
      modifies subscriptions.Values
      ensures Valid()
      ensures CancelsExactly(subscriptions.Values,
                             set subnet | subnet in subscriptions && subnet !in kept :: subscriptions[subnet])
    {
      var todo := subscriptions.Keys;
      while todo != {}
        invariant todo <= subscriptions.Keys && Valid()
        invariant CancelsExactly(
            subscriptions.Values,
            set subnet | subnet in subscriptions.Keys - todo && subnet !in kept :: subscriptions[subnet])
      {
        var subnet :| subnet in todo;
        if subnet !in kept {
          Cancel(subscriptions[subnet]);
        }
        todo := todo - {subnet};
      }
    }

    ghost function LiveSubnets(): set<nat>
      reads this, subscriptions.Values
    {
      set subnet | subnet in subscriptions && !subscriptions[subnet].cancelled
    }

    method Active() returns (active: seq<nat>)
      ensures Lists(active, LiveSubnets())
    {
      active := [];
      var todo := subscriptions.Keys;
      ghost var live := LiveSubnets();
      assert live - todo == {};
      while todo != {}
        invariant live == LiveSubnets() && todo <= subscriptions.Keys && Lists(active, live - todo)
      {
        var subnet :| subnet in todo;
        var cancelled := IsCancelled(subscriptions[subnet]);
        ListOneMore(active, live, todo, subnet);
        if !cancelled {
          active := active + [subnet];
        }
        todo := todo - {subnet};
      }
      assert live - todo == live;
    }

    method Count() returns (count: nat)
      ensures count == |LiveSubnets()|
    {
      count := 0;
      var todo := subscriptions.Keys;
      ghost var live := LiveSubnets();
      assert live - todo == {};
      while todo != {}
        invariant live == LiveSubnets() && todo <= subscriptions.Keys && count == |live - todo|
      {
        var subnet :| subnet in todo;
        var cancelled := IsCancelled(subscriptions[subnet]);
        CountOneMore(live, todo, subnet);
        if !cancelled {
          count := count + 1;
        }
        todo := todo - {subnet};
      }
      assert live - todo == live;
    }

    /** What is listed as active is exactly what is found here and not cancelled. */
    method Get(subnet: nat) returns (s: Subscription?)
      ensures s == null <==> subnet !in subscriptions
      ensures s != null ==> subscriptions[subnet] == s
      ensures s != null && !s.cancelled <==> subnet in LiveSubnets()
      ensures Valid() && s != null ==> subnet < maxSubnets && s.Sound()
    {
      s := if subnet in subscriptions then subscriptions[subnet] else null;
    }

    method Clear()
      requires Valid()
      modifies this, subscriptions.Values
      ensures Valid() && subscriptions == map[]
      ensures CancelsExactly(old(subscriptions.Values), Dropped(maxSubnets, old(subscriptions), Op.Clear))
    {
      CancelMissing({});
      subscriptions := map[];
    }
  }
}

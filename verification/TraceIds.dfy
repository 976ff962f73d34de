/**
 * Trace identifiers for beacon nodes. Each address has an eight-character base taken
 * from its hash; a nested loop keeps the identifiers of one call apart by counting.
 * The hash itself is a parameter: nothing below depends on which bases collide.
 */
module TraceIds {
  import opened Common
  import opened Text

  const NO_ADDRESSES := "no addresses provided"

  /** The first eight characters of the encoded hash; they may contain a dash themselves. */
  type Base = s: string | |s| == 8 witness "AAAAAAAA"

  function Id(base: Base, counter: nat): string {
    if counter == 0 then base else base + "-" + Decimal(counter)
  }

  function Occurrences(bases: seq<Base>, base: Base): nat {
    if bases == [] then 0
    else Occurrences(bases[..|bases| - 1], base) + if bases[|bases| - 1] == base then 1 else 0
  }

  /** How many addresses before position i share its base. */
  function Earlier(bases: seq<Base>, i: nat): nat
    requires i < |bases|
  {
    Occurrences(bases[..i], bases[i])
  }

  function TraceId(bases: seq<Base>, i: nat): string
    requires i < |bases|
  {
    Id(bases[i], Earlier(bases, i))
  }

  function Bases(addresses: seq<string>, base: string -> Base): (bases: seq<Base>)
    ensures |bases| == |addresses|
  {
    seq(|addresses|, i requires 0 <= i < |addresses| => base(addresses[i]))
  }

  // ----- Properties of the closed form -----

  /** The occurrences of a base are counted one position each. */
  lemma {:induction false} EarlierCounts(bases: seq<Base>, n: nat, base: Base)
    requires n <= |bases|
    ensures Occurrences(bases[..n], base) == |Positions(bases, n, base)|
  {
    if n > 0 {
      EarlierCounts(bases, n - 1, base);
      OccurrencesStep(bases, n - 1, base);
      OnePosition(bases, n - 1, base);
    }
  }

  function Positions(bases: seq<Base>, n: nat, base: Base): set<nat>
    requires n <= |bases|
  {
    set j: nat | j < n && bases[j] == base
  }

  lemma OnePosition(bases: seq<Base>, n: nat, base: Base)
    requires n < |bases|
    ensures |Positions(bases, n + 1, base)| == |Positions(bases, n, base)| + if bases[n] == base then 1 else 0
  {
    assert Positions(bases, n + 1, base) == Positions(bases, n, base) + if bases[n] == base then {n} else {};
  }

  /** Although a base may contain a dash, its fixed length keeps base and counter readable. */
  lemma IdInjective(a: Base, m: nat, b: Base, n: nat)
    requires Id(a, m) == Id(b, n)
    ensures a == b && m == n
  {
    assert Id(a, m)[..8] == a && Id(b, n)[..8] == b;
    if m != 0 && n != 0 {
      assert Id(a, m)[9..] == Decimal(m) && Id(b, n)[9..] == Decimal(n);
      DecimalInjective(m, n);
    }
  }

  lemma OccurrencesStep(bases: seq<Base>, i: nat, base: Base)
    requires i < |bases|
    ensures Occurrences(bases[..i + 1], base) == Occurrences(bases[..i], base) + if bases[i] == base then 1 else 0
  {
    assert bases[..i + 1][..i] == bases[..i];
  }

  lemma {:induction false} OccurrencesMonotone(bases: seq<Base>, i: nat, j: nat, base: Base)
    requires i <= j <= |bases|
    ensures Occurrences(bases[..i], base) <= Occurrences(bases[..j], base)
  {
    if i < j {
      OccurrencesMonotone(bases, i, j - 1, base);
      OccurrencesStep(bases, j - 1, base);
    }
  }

  /** Of two addresses with one base, the later has seen the earlier. */
  lemma EarlierIsStrict(bases: seq<Base>, i: nat, j: nat)
    requires i < j < |bases| && bases[i] == bases[j]
    ensures Earlier(bases, i) < Earlier(bases, j)
  {
    OccurrencesStep(bases, i, bases[i]);
    OccurrencesMonotone(bases, i + 1, j, bases[i]);
  }

  /** Every counter below the number of occurrences belongs to some address with that base. */
  lemma {:induction false} CounterIsUsed(bases: seq<Base>, n: nat, base: Base, k: nat)
    requires n <= |bases| && k < Occurrences(bases[..n], base)
    ensures exists j: nat :: j < n && bases[j] == base && Earlier(bases, j) == k
  {
    if n > 0 {
      OccurrencesStep(bases, n - 1, base);
      if k < Occurrences(bases[..n - 1], base) {
        CounterIsUsed(bases, n - 1, base, k);
      } else {
        assert bases[n - 1] == base && Earlier(bases, n - 1) == k;
      }
    }
  }

  /** The identifiers with one base that are in use after n addresses: the counters up to its occurrences. */
  lemma TakenExactly(bases: seq<Base>, n: nat, base: Base, k: nat)
    requires n <= |bases|
    ensures (exists j: nat :: j < n && TraceId(bases, j) == Id(base, k)) <==> k < Occurrences(bases[..n], base)
  {
    if k < Occurrences(bases[..n], base) {
      CounterIsUsed(bases, n, base, k);
      var j: nat :| j < n && bases[j] == base && Earlier(bases, j) == k;
      assert TraceId(bases, j) == Id(base, k);
    }
    forall j: nat | j < n && TraceId(bases, j) == Id(base, k)
      ensures k < Occurrences(bases[..n], base)
    {
      IdInjective(bases[j], Earlier(bases, j), base, k);
      OccurrencesStep(bases, j, base);
      OccurrencesMonotone(bases, j + 1, n, base);
    }
  }

  /** All identifiers of one call differ. */
  lemma AllDistinct(bases: seq<Base>, i: nat, j: nat)
    requires i < j < |bases|
    ensures TraceId(bases, i) != TraceId(bases, j)
  {
    if TraceId(bases, i) == TraceId(bases, j) {
      IdInjective(bases[i], Earlier(bases, i), bases[j], Earlier(bases, j));
      EarlierIsStrict(bases, i, j);
    }
  }

  /** An identifier is the bare base for the first address with it, and then the base, a dash and the count so far. */
  lemma SpelledOut(addresses: seq<string>, base: string -> Base, i: nat, count: nat)
    requires i < |addresses| && count == |set j: nat | j < i && base(addresses[j]) == base(addresses[i])|
    ensures TraceId(Bases(addresses, base), i)
            == if count == 0 then base(addresses[i]) else base(addresses[i]) + "-" + Decimal(count)
  {
    var bases := Bases(addresses, base);
    EarlierCounts(bases, i, bases[i]);
    assert (set j: nat | j < i && base(addresses[j]) == base(addresses[i])) == Positions(bases, i, bases[i]);
  }

  /** Adding addresses at the end changes no identifier already given. */
  lemma PrefixStable(addresses: seq<string>, more: seq<string>, base: string -> Base, i: nat)
    requires i < |addresses|
    ensures TraceId(Bases(addresses + more, base), i) == TraceId(Bases(addresses, base), i)
  {
    var short, long := Bases(addresses, base), Bases(addresses + more, base);
    assert long[..i] == short[..i];
  }

  // ----- The nested loop -----

  /** The rounds are the numbers of times the inner loop ran, one for each address. */
  method GenerateBeaconTraceIDs(addresses: seq<string>, base: string -> Base)
    returns (result: Result<seq<string>, string>, ghost rounds: seq<nat>)
    ensures addresses == [] <==> result.Err?
    ensures result.Err? ==> result.error == NO_ADDRESSES
    ensures result.Ok? ==> |result.value| == |addresses| == |rounds|
    ensures result.Ok? ==> forall i: nat :: i < |addresses| ==>
      result.value[i] == TraceId(Bases(addresses, base), i) && rounds[i] == Earlier(Bases(addresses, base), i)
    ensures result.Ok? ==> forall i: nat, j: nat :: i < j < |addresses| ==> result.value[i] != result.value[j]
  {
    rounds := [];
    if |addresses| == 0 {
      return Err(NO_ADDRESSES), rounds;
    }
    ghost var bases := Bases(addresses, base);
    var traceIDs: seq<string> := [];
    var uniqueIDs: set<string> := {};
    var i := 0;
    while i < |addresses|
      invariant i == |traceIDs| == |rounds| <= |addresses|
      invariant forall j: nat :: j < i ==> traceIDs[j] == TraceId(bases, j) && rounds[j] == Earlier(bases, j)
      invariant forall id :: id in uniqueIDs <==> exists j: nat :: j < i && TraceId(bases, j) == id
    {
      var baseID := base(addresses[i]);
      var id: string := baseID;
      var counter := 1;
      ghost var round := 0;
      TakenExactly(bases, i, baseID, 0);
      while id in uniqueIDs
        invariant counter == round + 1 && id == Id(baseID, round) && round <= Earlier(bases, i)
        invariant id in uniqueIDs <==> round < Earlier(bases, i)
        decreases Earlier(bases, i) - round
      {
        TakenExactly(bases, i, baseID, counter);
        id := baseID + "-" + Decimal(counter);
        counter := counter + 1;
        round := round + 1;
      }
      uniqueIDs := uniqueIDs + {id};
      traceIDs := traceIDs + [id];
      rounds := rounds + [round];
      i := i + 1;
    }
    forall i: nat, j: nat | i < j < |addresses| ensures traceIDs[i] != traceIDs[j] {
      AllDistinct(bases, i, j);
    }
    result := Ok(traceIDs);
  }

  /** One address alone always gets its bare base. */
  method GenerateBeaconTraceID(address: string, base: string -> Base) returns (result: Result<string, string>)
    ensures result == Ok(base(address))
  {
    var ids, rounds := GenerateBeaconTraceIDs([address], base);
    result := Ok(ids.value[0]);
  }
}

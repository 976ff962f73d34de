/** The attestation pool: attestations by key, indexed by slot, up to a maximum size. */
module AttestationPools {
  import opened Common
  import opened Text

  datatype Attestation = Attestation(slot: nat, root: seq<Byte>, committeeIndex: nat, signature: seq<Byte>)

  /** Root and committee; the slot is not part of the key. */
  function Key(att: Attestation): string {
    Hex(att.root) + ("_" + Decimal(att.committeeIndex))
  }

  /** Two attestations count as the same exactly when root and committee agree, whatever their slots. */
  lemma SameKey(a: Attestation, b: Attestation)
    ensures Key(a) == Key(b) <==> a.root == b.root && a.committeeIndex == b.committeeIndex
  {
    if Key(a) == Key(b) {
      HexLength(a.root);
      HexLength(b.root);
      var (x, y) := (Hex(a.root), Hex(b.root));
      assert '_' !in x && '_' !in y;
      assert Key(a)[|x|] == '_' && Key(b)[|y|] == '_';
      FirstUnderscore(Key(a), x, |y|);
      FirstUnderscore(Key(a), y, |x|);
      assert Key(a)[..|x|] == x && Key(b)[..|y|] == y;
      HexInjective(a.root, b.root);
      assert Key(a)[|x| + 1..] == Decimal(a.committeeIndex) && Key(b)[|y| + 1..] == Decimal(b.committeeIndex);
      DecimalInjective(a.committeeIndex, b.committeeIndex);
    }
  }

  lemma FirstUnderscore(s: string, prefix: string, i: nat)
    requires prefix <= s && '_' !in prefix && i < |s| && s[i] == '_'
    ensures |prefix| <= i
  {
    assert forall j: nat :: j < |prefix| ==> s[j] == prefix[j];
  }

  // ----- What a sequence of additions stores -----

  function Keys(atts: seq<Attestation>): set<string> {
    set att <- atts :: Key(att)
  }

  predicate Refused(maxSize: int, stored: seq<Attestation>, att: Attestation) {
    Key(att) !in Keys(stored) && |stored| >= maxSize
  }

  /** One addition; a duplicate and a refused attestation change nothing. */
  function Offer(maxSize: int, stored: seq<Attestation>, att: Attestation): seq<Attestation> {
    if Key(att) in Keys(stored) || |stored| >= maxSize then stored else stored + [att]
  }

  /** An addition is refused exactly when the pool holds no attestation with its key afterwards. */
  lemma RefusedExactly(maxSize: int, stored: seq<Attestation>, att: Attestation)
    ensures Refused(maxSize, stored, att) <==> Key(att) !in Keys(Offer(maxSize, stored, att))
  {
    KeysAppend(stored, att);
  }

  function Stored(maxSize: int, calls: seq<Attestation>): seq<Attestation> {
    if calls == [] then [] else Offer(maxSize, Stored(maxSize, calls[..|calls| - 1]), calls[|calls| - 1])
  }

  /** The calls whose key did not occur in an earlier call. */
  function Firsts(calls: seq<Attestation>): seq<Attestation> {
    if calls == [] then []
    else
      var front, last := calls[..|calls| - 1], calls[|calls| - 1];
      if Key(last) in Keys(front) then Firsts(front) else Firsts(front) + [last]
  }

  function Capacity(maxSize: int): nat {
    if maxSize < 0 then 0 else maxSize
  }

  function Take(atts: seq<Attestation>, n: nat): seq<Attestation> {
    if |atts| <= n then atts else atts[..n]
  }

  lemma {:induction false} FirstsKeys(calls: seq<Attestation>)
    ensures Keys(Firsts(calls)) == Keys(calls)
  {
    if calls != [] {
      var front, last := calls[..|calls| - 1], calls[|calls| - 1];
      FirstsKeys(front);
      assert calls == front + [last];
      assert Keys(calls) == Keys(front) + {Key(last)};
      assert Keys(Firsts(front) + [last]) == Keys(Firsts(front)) + {Key(last)};
    }
  }

  /** In the long run the pool holds the first attestation of each of the first keys offered, up to its capacity. */
  lemma {:induction false} StoredIsFirsts(maxSize: int, calls: seq<Attestation>)
    ensures Stored(maxSize, calls) == Take(Firsts(calls), Capacity(maxSize))
  {
    if calls != [] {
      var front, last := calls[..|calls| - 1], calls[|calls| - 1];
      StoredIsFirsts(maxSize, front);
      FirstsKeys(front);
      var n := Capacity(maxSize);
      if |Firsts(front)| >= n {
        assert |Stored(maxSize, front)| == n;
        assert Take(Firsts(front) + [last], n) == Take(Firsts(front), n);
      } else {
        assert Stored(maxSize, front) == Firsts(front);
      }
    }
  }

  ghost predicate DistinctKeys(atts: seq<Attestation>) {
    forall i: nat, j: nat :: i < j < |atts| ==> Key(atts[i]) != Key(atts[j])
  }

  lemma {:induction false} StoredIsDistinct(maxSize: int, calls: seq<Attestation>)
    ensures DistinctKeys(Stored(maxSize, calls)) && |Stored(maxSize, calls)| <= Capacity(maxSize)
  {
    if calls != [] {
      var front, last := calls[..|calls| - 1], calls[|calls| - 1];
      StoredIsDistinct(maxSize, front);
      var before := Stored(maxSize, front);
      forall i: nat | i < |before| ensures Key(before[i]) in Keys(before) {
      }
    }
  }

  // ----- The index by slot -----

  /** The attestations of one slot, in the order in which they were stored. */
  function BySlot(stored: seq<Attestation>, slot: nat): seq<Attestation> {
    if stored == [] then []
    else
      var front, last := stored[..|stored| - 1], stored[|stored| - 1];
      BySlot(front, slot) + if last.slot == slot then [last] else []
  }

  /** Every stored attestation stands in the list of its own slot, after exactly the earlier ones of that slot. */
  lemma {:induction false} EachInItsPlace(stored: seq<Attestation>, i: nat)
    requires i < |stored|
    ensures var place := |BySlot(stored[..i], stored[i].slot)|;
            place < |BySlot(stored, stored[i].slot)| && BySlot(stored, stored[i].slot)[place] == stored[i]
  {
    var front := stored[..|stored| - 1];
    if i < |front| {
      EachInItsPlace(front, i);
      assert front[..i] == stored[..i];
    }
  }

  /** And each list holds nothing else: its elements are stored, and belong to its slot. */
  lemma {:induction false} NothingElse(stored: seq<Attestation>, slot: nat, k: nat)
    requires k < |BySlot(stored, slot)|
    ensures BySlot(stored, slot)[k].slot == slot
    ensures exists i: nat :: i < |stored| && stored[i] == BySlot(stored, slot)[k] && |BySlot(stored[..i], slot)| == k
  {
    var front, last := stored[..|stored| - 1], stored[|stored| - 1];
    if k < |BySlot(front, slot)| {
      NothingElse(front, slot, k);
      var i: nat :| i < |front| && front[i] == BySlot(front, slot)[k] && |BySlot(front[..i], slot)| == k;
      assert front[..i] == stored[..i] && stored[i] == front[i];
    } else {
      assert stored[|front|] == last && stored[..|front|] == front;
    }
  }

  function Length(stored: seq<Attestation>): nat -> int {
    (slot: nat) => |BySlot(stored, slot)|
  }

  ghost predicate Covers(slots: seq<nat>, stored: seq<Attestation>) {
    && (forall i: nat, j: nat :: i < j < |slots| ==> slots[i] != slots[j])
    && (forall att <- stored :: att.slot in slots)
  }

  lemma {:induction false} OneMore(slots: seq<nat>, front: seq<Attestation>, last: Attestation)
    requires forall i: nat, j: nat :: i < j < |slots| ==> slots[i] != slots[j]
    ensures Sum(slots, Length(front + [last])) == Sum(slots, Length(front)) + if last.slot in slots then 1 else 0
  {
    assert (front + [last])[..|front|] == front;
    if slots != [] {
      var before, slot := slots[..|slots| - 1], slots[|slots| - 1];
      OneMore(before, front, last);
      assert slots == before + [slot];
      if slot == last.slot {
        assert forall i: nat :: i < |before| ==> before[i] == slots[i] && slots[i] != slots[|before|];
        assert last.slot !in before;
      }
    }
  }

  /** The lengths of the lists add up to the number of attestations, over any slots that cover them. */
  lemma {:induction false} LengthsAddUp(slots: seq<nat>, stored: seq<Attestation>)
    requires Covers(slots, stored)
    ensures Sum(slots, Length(stored)) == |stored|
  {
    if stored == [] {
      AllEmpty(slots);
    } else {
      var front, last := stored[..|stored| - 1], stored[|stored| - 1];
      assert stored == front + [last];
      LengthsAddUp(slots, front);
      OneMore(slots, front, last);
    }
  }

  lemma {:induction false} AllEmpty(slots: seq<nat>)
    ensures Sum(slots, Length([])) == 0
  {
    if slots != [] {
      AllEmpty(slots[..|slots| - 1]);
    }
  }

  // ----- The pool -----

  /** The map by key holds exactly these attestations. */
  ghost predicate HeldByKey(attestations: map<string, Attestation>, stored: seq<Attestation>) {
    && attestations.Keys == Keys(stored) && |attestations| == |stored|
    && (forall att <- stored :: attestations[Key(att)] == att)
  }

  /** The index holds exactly the lists of the slots that occur. */
  ghost predicate HeldBySlot(bySlot: map<nat, seq<Attestation>>, stored: seq<Attestation>) {
    && (forall slot :: slot in bySlot <==> BySlot(stored, slot) != [])
    && (forall slot :: slot in bySlot ==> bySlot[slot] == BySlot(stored, slot))
  }

  function ListOf(bySlot: map<nat, seq<Attestation>>, slot: nat): seq<Attestation> {
    if slot in bySlot then bySlot[slot] else []
  }

  lemma KeysAppend(stored: seq<Attestation>, att: Attestation)
    ensures Keys(stored + [att]) == Keys(stored) + {Key(att)}
  {
  }

  lemma AddByKey(attestations: map<string, Attestation>, stored: seq<Attestation>, att: Attestation)
    requires HeldByKey(attestations, stored) && Key(att) !in attestations
    ensures HeldByKey(attestations[Key(att) := att], stored + [att])
  {
    var more := attestations[Key(att) := att];
    assert more.Keys == attestations.Keys + {Key(att)};
    KeysAppend(stored, att);
    forall a <- stored + [att] ensures more[Key(a)] == a {
      if a in stored {
        assert Key(a) in Keys(stored);
      }
    }
  }

  lemma AddBySlot(bySlot: map<nat, seq<Attestation>>, stored: seq<Attestation>, att: Attestation)
    requires HeldBySlot(bySlot, stored)
    ensures HeldBySlot(bySlot[att.slot := ListOf(bySlot, att.slot) + [att]], stored + [att])
  {
    assert (stored + [att])[..|stored|] == stored;
  }

  class AttestationPool {
    const maxSize: int
    var attestations: map<string, Attestation>
    var bySlot: map<nat, seq<Attestation>>
    /** Every attestation ever given to Add, in order. */
    ghost var calls: seq<Attestation>

    ghost function Contents(): seq<Attestation>
      reads this
    {
      Stored(maxSize, calls)
    }

    ghost predicate Valid()
      reads this
    {
      HeldByKey(attestations, Contents()) && HeldBySlot(bySlot, Contents())
    }

    constructor (maxSize: int)
      ensures Valid() && this.maxSize == maxSize && calls == []
    {
      this.maxSize := maxSize;
      attestations := map[];
      bySlot := map[];
      calls := [];
    }

    /** Duplicates are dropped silently; a new key is refused with an error when the pool is full. */
    method Add(att: Attestation) returns (full: bool)
      requires Valid()
      modifies this
      ensures Valid() && calls == old(calls) + [att]
      ensures full <==> Refused(maxSize, old(Contents()), att)
      ensures Contents() == Offer(maxSize, old(Contents()), att)
      ensures Contents() == old(Contents()) ==> attestations == old(attestations) && bySlot == old(bySlot)
    {
      ghost var before := Contents();
      calls := calls + [att];
      assert calls[..|calls| - 1] == old(calls);
      var key := Key(att);
      if key in attestations {
        return false;
      }
      if |attestations| >= maxSize {
        return true;
      }
      AddByKey(attestations, before, att);
      AddBySlot(bySlot, before, att);
      attestations := attestations[key := att];
      bySlot := bySlot[att.slot := ListOf(bySlot, att.slot) + [att]];
      full := false;
    }

    method GetBySlot(slot: nat) returns (atts: seq<Attestation>)
      requires Valid()
      ensures atts == BySlot(Stored(maxSize, calls), slot)
    {
      atts := ListOf(bySlot, slot);
    }

    method Count() returns (n: nat)
      requires Valid()
      ensures n == |Stored(maxSize, calls)| == |Take(Firsts(calls), Capacity(maxSize))|
      ensures n <= Capacity(maxSize)
      ensures forall slots :: Covers(slots, Stored(maxSize, calls)) ==> Sum(slots, Length(Stored(maxSize, calls))) == n
    {
      StoredIsFirsts(maxSize, calls);
      StoredIsDistinct(maxSize, calls);
      forall slots | Covers(slots, Contents()) ensures Sum(slots, Length(Contents())) == |Contents()| {
        LengthsAddUp(slots, Contents());
      }
      n := |attestations|;
    }
  }
}

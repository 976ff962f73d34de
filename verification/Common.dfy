/** Small value types and counting helpers shared by the other modules. */
module Common {

  datatype Option<+T> = None | Some(value: T)

  datatype Result<+T, +E> = Ok(value: T) | Err(error: E)

  type Byte = b: int | 0 <= b < 256

  const TWO_64 := 0x1_0000_0000_0000_0000

  /** The sum of the weights of the elements of a sequence. */
  function Sum<T>(s: seq<T>, weight: T -> int): int {
    if s == [] then 0 else Sum(s[..|s| - 1], weight) + weight(s[|s| - 1])
  }

  lemma SumAppend<T>(s: seq<T>, x: T, weight: T -> int)
    ensures Sum(s + [x], weight) == Sum(s, weight) + weight(x)
  {
    assert (s + [x])[..|s|] == s;
  }

  lemma {:induction false} SumConcat<T>(a: seq<T>, b: seq<T>, weight: T -> int)
    ensures Sum(a + b, weight) == Sum(a, weight) + Sum(b, weight)
  {
    if b == [] {
      assert a + b == a;
    } else {
      var front, last := b[..|b| - 1], b[|b| - 1];
      assert a + b == (a + front) + [last];
      SumAppend(a + front, last, weight);
      SumConcat(a, front, weight);
    }
  }

  lemma SumTail<T>(s: seq<T>, weight: T -> int)
    requires s != []
    ensures Sum(s, weight) == weight(s[0]) + Sum(s[1..], weight)
  {
    assert s == [s[0]] + s[1..];
    SumConcat([s[0]], s[1..], weight);
    assert Sum([s[0]], weight) == weight(s[0]) by {
      assert [s[0]][..0] == [];
    }
  }

  lemma {:induction false} SumUpdate<T>(s: seq<T>, i: nat, x: T, weight: T -> int)
    requires i < |s|
    ensures Sum(s[i := x], weight) == Sum(s, weight) - weight(s[i]) + weight(x)
  {
    var front := s[..|s| - 1];
    if i == |s| - 1 {
      assert s[i := x][..|s| - 1] == front;
    } else {
      assert s[i := x][..|s| - 1] == front[i := x];
      SumUpdate(front, i, x, weight);
    }
  }

  lemma {:induction false} SumNonNegative<T>(s: seq<T>, weight: T -> int)
    requires forall x <- s :: 0 <= weight(x)
    ensures 0 <= Sum(s, weight)
    ensures forall x <- s :: weight(x) <= Sum(s, weight)
  {
    if s != [] {
      SumNonNegative(s[..|s| - 1], weight);
      forall x <- s ensures weight(x) <= Sum(s, weight) {
        if x != s[|s| - 1] {
          assert x in s[..|s| - 1];
        }
      }
    }
  }

  // ----- Sequences that grow by at most one element -----

  function Newest<T>(before: seq<T>, after: seq<T>): Option<T> {
    if |after| == |before| + 1 then Some(after[|before|]) else None
  }

  function Listed<T>(x: Option<T>): seq<T> {
    if x.Some? then [x.value] else []
  }

  ghost predicate Grows<T>(before: seq<T>, after: seq<T>) {
    after == before + Listed(Newest(before, after))
  }

  function Weigh<T>(x: Option<T>, weight: T -> int): int {
    if x.Some? then weight(x.value) else 0
  }

  lemma GrowsSum<T>(before: seq<T>, after: seq<T>, weight: T -> int)
    requires Grows(before, after)
    ensures Sum(after, weight) == Sum(before, weight) + Weigh(Newest(before, after), weight)
  {
    if Newest(before, after).Some? {
      SumAppend(before, Newest(before, after).value, weight);
    } else {
      assert after == before;
    }
  }
}

/**
 The length accounting of a response: m_cContentLength starts as the declared length and is reduced by
 every amount of data WinHTTP announces, in 64 bits and only while it is not 0.
 */
module ResponseLength {

  const TWO_64: int := 0x1_0000_0000_0000_0000

  type ulonglong = x: int | 0 <= x < TWO_64

  /** m_cContentLength after these announcements. */
  function Remaining(length: ulonglong, sizes: seq<nat>): ulonglong {
    if sizes == [] then length
    else
      var c := Remaining(length, sizes[..|sizes| - 1]);
      if c != 0 then (c - sizes[|sizes| - 1]) % TWO_64 else 0
  }

  function Sum(sizes: seq<nat>): nat {
    if sizes == [] then 0 else Sum(sizes[..|sizes| - 1]) + sizes[|sizes| - 1]
  }

  lemma SumAppend(sizes: seq<nat>, n: nat)
    ensures Sum(sizes + [n]) == Sum(sizes) + n
  {
    assert (sizes + [n])[..|sizes|] == sizes;
  }

  lemma {:induction false} SumMonotone(sizes: seq<nat>, k: nat)
    requires k <= |sizes|
    ensures Sum(sizes[..k]) <= Sum(sizes)
  {
    if k < |sizes| {
      SumMonotone(sizes[..|sizes| - 1], k);
      assert sizes[..|sizes| - 1][..k] == sizes[..k];
    } else {
      assert sizes[..k] == sizes;
    }
  }

  /** Some announcements bring the total to the declared length, as far as 64 bits can tell. */
  ghost predicate Hits(length: ulonglong, sizes: seq<nat>) {
    exists k :: 0 <= k <= |sizes| && Sum(sizes[..k]) % TWO_64 == length
  }

  lemma HitsAppend(length: ulonglong, sizes: seq<nat>)
    requires sizes != []
    ensures Hits(length, sizes) <==> Hits(length, sizes[..|sizes| - 1]) || Sum(sizes) % TWO_64 == length
  {
    var front := sizes[..|sizes| - 1];
    assert sizes[..|sizes|] == sizes;
    if Hits(length, sizes) {
      var k :| 0 <= k <= |sizes| && Sum(sizes[..k]) % TWO_64 == length;
      if k < |sizes| { assert front[..k] == sizes[..k]; }
    }
    if Hits(length, front) {
      var k :| 0 <= k <= |front| && Sum(front[..k]) % TWO_64 == length;
      assert front[..k] == sizes[..k];
    }
  }

  /** Exactly when the accounting reaches 0: when some announcement brings the total to the length modulo
      2^64, whatever is announced after it. */
  lemma {:induction false} RemainingIsZeroIff(length: ulonglong, sizes: seq<nat>)
    requires length != 0
    ensures Remaining(length, sizes) == 0 <==> Hits(length, sizes)
    ensures Remaining(length, sizes) != 0 ==> Remaining(length, sizes) == (length - Sum(sizes)) % TWO_64
  {
    if sizes == [] {
      assert sizes[..0] == [];
    } else {
      var front, n := sizes[..|sizes| - 1], sizes[|sizes| - 1];
      RemainingIsZeroIff(length, front);
      HitsAppend(length, sizes);
      if Remaining(length, front) != 0 {
        ModAgain(length, Sum(front), n);
      }
    }
  }

  lemma ModAgain(length: ulonglong, sum: nat, n: nat)
    ensures ((length - sum) % TWO_64 - n) % TWO_64 == (length - (sum + n)) % TWO_64
    ensures (length - (sum + n)) % TWO_64 == 0 <==> (sum + n) % TWO_64 == length
  {
    var d := (length - sum) / TWO_64;
    assert length - sum == d * TWO_64 + (length - sum) % TWO_64;
  }

  /** As long as the backend does not exceed its Content-Length the accounting is the difference, so it
      reaches 0 if and only if exactly the declared length was sent. */
  lemma {:induction false} RemainingIsDifference(length: ulonglong, sizes: seq<nat>)
    requires Sum(sizes) <= length
    ensures Remaining(length, sizes) == length - Sum(sizes)
  {
    if sizes != [] {
      var front := sizes[..|sizes| - 1];
      RemainingIsDifference(length, front);
    }
  }

  /** A response that declared no length, or 0, is never found short. */
  lemma {:induction false} NoLengthNeverShort(sizes: seq<nat>)
    ensures Remaining(0, sizes) == 0
  {
    if sizes != [] { NoLengthNeverShort(sizes[..|sizes| - 1]); }
  }

  /** A backend that sends more than it declared can still end normally: the accounting stops at the
      declared length. */
  lemma ExcessUnnoticed()
    ensures Remaining(5, [5, 7]) == 0 && Sum([5, 7]) == 12
  {
    assert [5, 7][..1] == [5] && [5][..0] == [];
    assert Remaining(5, [5]) == 0;
    assert Sum([5]) == 5;
  }
}

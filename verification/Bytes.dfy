/** Bytes, and the strings of them that codecs read and write. */
module Bytes {

  type byte = x: int | 0 <= x < 0x100

  const CR: byte := 13
  const LF: byte := 10

  /** One string after the other. */
  function Concat(parts: seq<seq<byte>>): seq<byte> {
    if parts == [] then [] else parts[0] + Concat(parts[1..])
  }

  lemma {:induction false} ConcatAppend(parts: seq<seq<byte>>, last: seq<byte>)
    ensures Concat(parts + [last]) == Concat(parts) + last
  {
    if parts == [] {
      assert parts + [last] == [last];
    } else {
      ConcatAppend(parts[1..], last);
      assert (parts + [last])[1..] == parts[1..] + [last];
    }
  }

  // ----- The printable ASCII characters, as text -----

  const UPPER: string := "ABCDEFGHIJKLMNOPQRSTUVWXYZ"
  const LOWER: string := "abcdefghijklmnopqrstuvwxyz"
  const DIGITS: string := "0123456789"

  lemma UpperAt(i: nat)
    requires i < 26
    ensures |UPPER| == 26 && UPPER[i] as int == 65 + i
  {
  }

  lemma LowerAt(i: nat)
    requires i < 26
    ensures |LOWER| == 26 && LOWER[i] as int == 97 + i
  {
  }

  lemma Uppers(c: char)
    ensures |UPPER| == 26 && (c in UPPER <==> 65 <= c as int <= 90)
    ensures c in UPPER ==> UPPER[c as int - 65] == c
    ensures forall i | 0 <= i < 26 :: UPPER[i] as int == 65 + i
  {
    hide UPPER;
    UpperAt(0);
    forall i | 0 <= i < 26 ensures UPPER[i] as int == 65 + i { UpperAt(i); }
    if 65 <= c as int <= 90 { assert UPPER[c as int - 65] == c; }
  }

  lemma Lowers(c: char)
    ensures |LOWER| == 26 && (c in LOWER <==> 97 <= c as int <= 122)
    ensures c in LOWER ==> LOWER[c as int - 97] == c
    ensures forall i | 0 <= i < 26 :: LOWER[i] as int == 97 + i
  {
    hide LOWER;
    LowerAt(0);
    forall i | 0 <= i < 26 ensures LOWER[i] as int == 97 + i { LowerAt(i); }
    if 97 <= c as int <= 122 { assert LOWER[c as int - 97] == c; }
  }

  lemma Digits(c: char)
    ensures |DIGITS| == 10 && (c in DIGITS <==> 48 <= c as int <= 57)
    ensures c in DIGITS ==> DIGITS[c as int - 48] == c
    ensures forall i | 0 <= i < 10 :: DIGITS[i] as int == 48 + i
  {
    if 48 <= c as int <= 57 { assert DIGITS[c as int - 48] == c; }
  }
}

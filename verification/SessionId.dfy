/** The session id of a sync: a random 32-bit number in base 62, least significant digit first. */
module SessionId {

  const TWO_TO_THE_32: nat := 0x1_0000_0000

  /** The table of the source: lower case, upper case, decimal digits. */
  function Digit(i: nat): char
    requires i < 62
  {
    if i < 26 then 'a' + i as char else if i < 52 then 'A' + (i - 26) as char else '0' + (i - 52) as char
  }

  function Value(c: char): (v: nat) {
    if 'a' <= c <= 'z' then (c - 'a') as nat
    else if 'A' <= c <= 'Z' then (c - 'A') as nat + 26
    else if '0' <= c <= '9' then (c - '0') as nat + 52
    else 62
  }

  /** The table begins with a to z, goes on with A to Z and ends with 0 to 9, each run in order. */
  lemma DigitTable(i: nat)
    requires i < 62
    ensures Digit(0) == 'a' && Digit(25) == 'z' && Digit(26) == 'A' && Digit(51) == 'Z' && Digit(52) == '0'
    ensures i < 61 && i != 25 && i != 51 ==> Digit(i + 1) as int == Digit(i) as int + 1
    ensures Value(Digit(i)) == i
  {
  }

  /** The digits of `n`, none for zero. */
  function Digits(n: nat): string { if n == 0 then "" else [Digit(n % 62)] + Digits(n / 62) }

  /** The number that a text stands for. */
  function Number(s: string): nat { if s == "" then 0 else Value(s[0]) + 62 * Number(s[1..]) }

  function IdOf(n: nat): string { if n == 0 then "0" else Digits(n) }

  function Pow62(k: nat): nat { if k == 0 then 1 else 62 * Pow62(k - 1) }

  lemma {:induction false} DigitsRoundTrip(n: nat)
    ensures Number(Digits(n)) == n
  {
    if n > 0 {
      DigitsRoundTrip(n / 62);
      assert Digits(n)[1..] == Digits(n / 62);
    }
  }

  lemma {:induction false} DigitsAreShort(n: nat, k: nat)
    requires n < Pow62(k)
    ensures |Digits(n)| <= k
    decreases k
  {
    if n > 0 {
      assert n / 62 < Pow62(k - 1);
      DigitsAreShort(n / 62, k - 1);
    }
  }

  lemma {:induction false} DigitsAreAlphanumeric(n: nat, i: nat)
    requires i < |Digits(n)|
    ensures Value(Digits(n)[i]) < 62
  {
    if i > 0 { DigitsAreAlphanumeric(n / 62, i - 1); }
  }

  /** Two draws collide exactly when they are equal or are 0 and 52, whose ids are both "0". */
  lemma IdsCollideExactlyWhen(m: nat, n: nat)
    ensures IdOf(m) == IdOf(n) <==> m == n || (m == 0 && n == 52) || (m == 52 && n == 0)
  {
    DigitsRoundTrip(m);
    DigitsRoundTrip(n);
    assert Digits(52) == "0" by { assert Digits(52 / 62) == ""; }
    assert Number("0") == 52 by { assert "0"[1..] == ""; }
  }

  /** `simple_session_id` for the draw `n`. */
  method SimpleSessionId(n: nat) returns (id: string)
    requires n < TWO_TO_THE_32
    ensures id == IdOf(n) && 1 <= |id| <= 6
    ensures forall i :: 0 <= i < |id| ==> Value(id[i]) < 62
    ensures n > 0 ==> Number(id) == n
    ensures n == 0 ==> id == "0"
  {
    if n == 0 { return "0"; }
    id := "";
    var val := n;
    while val > 0
      invariant id + Digits(val) == Digits(n)
      decreases val
    {
      assert Digits(val) == [Digit(val % 62)] + Digits(val / 62);
      id := id + [Digit(val % 62)];
      val := val / 62;
    }
    assert id == Digits(n);
    SixDigitsSuffice();
    DigitsAreShort(n, 6);
    forall i | 0 <= i < |id| ensures Value(id[i]) < 62 { DigitsAreAlphanumeric(n, i); }
    DigitsRoundTrip(n);
  }

  lemma SixDigitsSuffice()
    ensures Pow62(6) >= TWO_TO_THE_32
  {
    assert Pow62(2) == 3_844;
    assert Pow62(3) == 238_328;
    assert Pow62(4) == 14_776_336;
    assert Pow62(5) == 916_132_832;
  }
}

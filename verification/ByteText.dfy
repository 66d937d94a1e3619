/** Byte order on text, and fixed-width positional numerals.

    SQLite compares TEXT columns with the BINARY collation, that is, byte by
    byte.  Everything the daemon stores in the compared columns is ASCII, so a
    `char` stands for a byte. */
module ByteText {

  datatype Option<+T> = None | Some(value: T)

  /** Byte order, a proper prefix being the smaller text. */
  predicate Less(s: string, t: string)
  {
    t != "" && (s == "" || s[0] < t[0] || (s[0] == t[0] && Less(s[1..], t[1..])))
  }

  /** Equally long heads are compared first; the rest matters only behind equal heads. */
  lemma {:induction false} LessHeads(a: string, b: string, s: string, t: string)
    requires |a| == |b|
    ensures Less(a + s, b + t) <==> Less(a, b) || (a == b && Less(s, t))
  {
    if a == "" {
      assert a + s == s && b + t == t;
    } else {
      assert (a + s)[1..] == a[1..] + s && (b + t)[1..] == b[1..] + t;
      LessHeads(a[1..], b[1..], s, t);
      assert a == [a[0]] + a[1..] && b == [b[0]] + b[1..];
    }
  }

  lemma LessIrreflexive(s: string)
    ensures !Less(s, s)
  {
  }

  /** Byte order is a strict total order. */
  lemma {:induction false} LessTotal(s: string, t: string)
    ensures Less(s, t) || s == t || Less(t, s)
    ensures !(Less(s, t) && Less(t, s))
  {
    if s != "" && t != "" {
      LessTotal(s[1..], t[1..]);
      assert s == [s[0]] + s[1..] && t == [t[0]] + t[1..];
    }
  }

  lemma {:induction false} LessTransitive(s: string, t: string, u: string)
    requires Less(s, t) && Less(t, u)
    ensures Less(s, u)
  {
    if s != "" && s[0] == t[0] == u[0] {
      LessTransitive(s[1..], t[1..], u[1..]);
    }
  }

  // ----- decimal numerals

  function Pow10(width: nat): nat {
    if width == 0 then 1 else 10 * Pow10(width - 1)
  }

  function DigitChar(d: nat): char
    requires d < 16
  {
    if d < 10 then '0' + d as char else 'a' + (d - 10) as char
  }

  function DigitValue(c: char): Option<nat> {
    if '0' <= c <= '9' then Some((c - '0') as nat) else None
  }

  /** The last `width` digits of `n`, most significant first, zero padded. */
  function Fixed(width: nat, n: nat): (s: string)
    ensures |s| == width
  {
    if width == 0 then "" else Fixed(width - 1, n / 10) + [DigitChar(n % 10)]
  }

  /** A run of digits, possibly empty, read as a number. */
  function ParseDigits(s: string): Option<nat> {
    if s == "" then Some(0)
    else
      var head := ParseDigits(s[..|s| - 1]);
      var last := DigitValue(s[|s| - 1]);
      if head.None? || last.None? then None else Some(head.value * 10 + last.value)
  }

  /** On numerals of one width, byte order is numeric order. */
  lemma {:induction false} FixedOrder(w: nat, a: nat, b: nat)
    requires a < Pow10(w) && b < Pow10(w)
    ensures Less(Fixed(w, a), Fixed(w, b)) <==> a < b
    ensures Fixed(w, a) == Fixed(w, b) <==> a == b
  {
    if w > 0 {
      FixedOrder(w - 1, a / 10, b / 10);
      var s, t := Fixed(w - 1, a / 10), Fixed(w - 1, b / 10);
      var x, y := [DigitChar(a % 10)], [DigitChar(b % 10)];
      LessHeads(s, t, x, y);
      assert s + x == t + y <==> s == t && x == y by {
        if s + x == t + y {
          assert s == (s + x)[..w - 1] && x == (s + x)[w - 1..];
          assert t == (t + y)[..w - 1] && y == (t + y)[w - 1..];
        }
      }
    }
  }

  /** Reading a numeral back gives the number. */
  lemma {:induction false} FixedParses(w: nat, n: nat)
    requires n < Pow10(w)
    ensures ParseDigits(Fixed(w, n)) == Some(n)
  {
    if w > 0 {
      FixedParses(w - 1, n / 10);
      assert Fixed(w, n)[..w - 1] == Fixed(w - 1, n / 10);
    }
  }

  lemma {:induction false} FixedAllDigits(w: nat, n: nat, i: nat)
    requires i < w
    ensures '0' <= Fixed(w, n)[i] <= '9'
  {
    if i < w - 1 {
      FixedAllDigits(w - 1, n / 10, i);
    }
  }

  function DropDigits(k: nat, n: nat): nat {
    if k == 0 then n else DropDigits(k - 1, n / 10)
  }

  /** The last `k` digits can be printed on their own. */
  lemma {:induction false} FixedSplit(w: nat, k: nat, n: nat)
    ensures Fixed(w + k, n) == Fixed(w, DropDigits(k, n)) + Fixed(k, n)
  {
    if k > 0 {
      FixedSplit(w, k - 1, n / 10);
      assert Fixed(w + k, n) == Fixed(w, DropDigits(k, n)) + (Fixed(k - 1, n / 10) + [DigitChar(n % 10)]);
    }
  }

  lemma ThreeDigits(n: nat)
    ensures Fixed(3, n) == [DigitChar(n / 10 / 10 % 10), DigitChar(n / 10 % 10), DigitChar(n % 10)]
  {
    assert Fixed(3, n) == Fixed(2, n / 10) + [DigitChar(n % 10)];
    assert Fixed(2, n / 10) == Fixed(1, n / 10 / 10) + [DigitChar(n / 10 % 10)];
    assert Fixed(1, n / 10 / 10) == Fixed(0, n / 10 / 10 / 10) + [DigitChar(n / 10 / 10 % 10)];
  }

  lemma LastThree(n: nat)
    ensures var m := n % 1000; m % 10 == n % 10 && m / 10 % 10 == n / 10 % 10 && m / 10 / 10 == n / 10 / 10 % 10
    ensures n / 10 / 10 / 10 == n / 1000
  {
    var h, m := n / 1000, n % 1000;
    TenTimes(n, 100 * h + m / 10, m % 10);
    TenTimes(n / 10, 10 * h + m / 10 / 10, m / 10 % 10);
    TenTimes(n / 10 / 10, h, m / 10 / 10);
  }

  lemma TenTimes(n: nat, q: nat, r: nat)
    requires r < 10 && n == 10 * q + r
    ensures n / 10 == q && n % 10 == r
  {
  }

  /** Cutting a numeral before its last three digits. */
  lemma FixedSplit3(w: nat, n: nat)
    ensures Fixed(w + 3, n) == Fixed(w, n / 1000) + Fixed(3, n % 1000)
  {
    FixedSplit(w, 3, n);
    LastThree(n);
    assert DropDigits(3, n) == DropDigits(2, n / 10) == DropDigits(1, n / 10 / 10) == n / 10 / 10 / 10;
    ThreeDigits(n);
    ThreeDigits(n % 1000);
  }

  /** Unpadded decimal, as `format!("{n}")` prints it. */
  function Decimal(n: nat): (s: string)
    ensures s != ""
  {
    if n < 10 then [DigitChar(n)] else Decimal(n / 10) + [DigitChar(n % 10)]
  }

  function Digits(n: nat): nat { |Decimal(n)| }

  lemma {:induction false} DecimalIsFixed(n: nat)
    ensures Decimal(n) == Fixed(Digits(n), n) && n < Pow10(Digits(n))
  {
    if n < 10 {
      assert Fixed(1, n) == Fixed(0, n / 10) + [DigitChar(n % 10)];
      assert Pow10(1) == 10;
    } else {
      DecimalIsFixed(n / 10);
    }
  }

  /** No leading zeros. */
  lemma {:induction false} DecimalIsShortest(n: nat)
    ensures if n == 0 then Decimal(n) == "0" else '1' <= Decimal(n)[0] <= '9'
  {
    if n >= 10 { DecimalIsShortest(n / 10); }
  }

  lemma {:induction false} DigitsGrow(m: nat, n: nat)
    requires m <= n
    ensures Digits(m) <= Digits(n)
  {
    if m >= 10 { DigitsGrow(m / 10, n / 10); }
  }

  lemma {:induction false} DropDigitsFits(w: nat, k: nat, n: nat)
    requires n < Pow10(w + k)
    ensures DropDigits(k, n) < Pow10(w)
  {
    if k > 0 { DropDigitsFits(w, k - 1, n / 10); }
  }

  lemma LongerOrder(w: nat, k: nat, m: nat, n: nat, s: string, t: string)
    requires m < Pow10(w) && n < Pow10(w + k)
    ensures Less(Fixed(w, m) + ("-" + s), Fixed(w + k, n) + ("-" + t)) <==>
            m < DropDigits(k, n) || (m == DropDigits(k, n) && (k > 0 || Less(s, t)))
  {
    var lead := DropDigits(k, n);
    DropDigitsFits(w, k, n);
    FixedSplit(w, k, n);
    FixedOrder(w, m, lead);
    var p, q := "-" + s, Fixed(k, n) + ("-" + t);
    assert Fixed(w + k, n) + ("-" + t) == Fixed(w, lead) + q;
    LessHeads(Fixed(w, m), Fixed(w, lead), p, q);
    if k == 0 {
      assert q == "-" + t;
      LessHeads("-", "-", s, t);
    } else {
      FixedAllDigits(k, n, 0);
    }
  }

  /** The leading digits of `n`, as many as `m` has. */
  function Leading(m: nat, n: nat): nat {
    if Digits(m) < Digits(n) then DropDigits(Digits(n) - Digits(m), n) else n
  }

  /** Unpadded numerals, each closed by a dash: the shorter one, `m`, comes first exactly when it does not
      exceed the leading digits of the longer one; on equal numbers the rest decides. */
  lemma DecimalOrder(m: nat, n: nat, s: string, t: string)
    requires m <= n
    ensures Less(Decimal(m) + ("-" + s), Decimal(n) + ("-" + t)) <==>
            m <= Leading(m, n) && (m == n ==> Less(s, t))
  {
    DigitsGrow(m, n);
    DecimalIsFixed(m);
    DecimalIsFixed(n);
    LongerOrder(Digits(m), Digits(n) - Digits(m), m, n, s, t);
  }

  function SignedDecimal(n: int): string {
    if n < 0 then "-" + Decimal(-n) else Decimal(n)
  }

  // ----- records of fixed-width numerals

  /** A numeral of `width` decimal digits followed by a literal separator. */
  datatype Field = Field(width: nat, value: nat, after: string)

  function FieldsText(fs: seq<Field>): string {
    if fs == [] then "" else Fixed(fs[0].width, fs[0].value) + fs[0].after + FieldsText(fs[1..])
  }

  ghost predicate Fits(fs: seq<Field>) {
    forall i :: 0 <= i < |fs| ==> fs[i].value < Pow10(fs[i].width)
  }

  ghost predicate SameShape(fs: seq<Field>, gs: seq<Field>) {
    && |fs| == |gs|
    && forall i :: 0 <= i < |fs| ==> fs[i].width == gs[i].width && fs[i].after == gs[i].after
  }

  /** Field by field order, the first field that differs deciding. */
  ghost predicate ValuesLess(fs: seq<Field>, gs: seq<Field>)
    requires |fs| == |gs|
  {
    fs != [] && (fs[0].value < gs[0].value || (fs[0].value == gs[0].value && ValuesLess(fs[1..], gs[1..])))
  }

  lemma FieldsTextCons(fs: seq<Field>, s: string)
    requires fs != []
    ensures FieldsText(fs) + s == Fixed(fs[0].width, fs[0].value) + (fs[0].after + (FieldsText(fs[1..]) + s))
  {
  }

  lemma {:induction false} FieldsOrder(fs: seq<Field>, gs: seq<Field>, s: string, t: string)
    requires SameShape(fs, gs) && Fits(fs) && Fits(gs)
    ensures Less(FieldsText(fs) + s, FieldsText(gs) + t) <==> ValuesLess(fs, gs) || (fs == gs && Less(s, t))
  {
    if fs == [] {
      assert FieldsText(fs) + s == s && FieldsText(gs) + t == t;
    } else {
      var f, g := fs[0], gs[0];
      var x, y := Fixed(f.width, f.value), Fixed(g.width, g.value);
      var p, q := FieldsText(fs[1..]) + s, FieldsText(gs[1..]) + t;
      FixedOrder(f.width, f.value, g.value);
      FieldsTextCons(fs, s);
      FieldsTextCons(gs, t);
      LessHeads(x, y, f.after + p, g.after + q);
      LessHeads(f.after, g.after, p, q);
      LessIrreflexive(f.after);
      FieldsOrder(fs[1..], gs[1..], s, t);
      assert fs == [f] + fs[1..] && gs == [g] + gs[1..];
    }
  }

  /** Reads fields of the given shape; the values found and the text left over. */
  function ParseFields(shape: seq<Field>, s: string): Option<(seq<nat>, string)> {
    if shape == [] then Some(([], s))
    else
      var f := shape[0];
      if |s| < f.width + |f.after| || s[f.width..f.width + |f.after|] != f.after then None
      else
        var v := ParseDigits(s[..f.width]);
        var rest := ParseFields(shape[1..], s[f.width + |f.after|..]);
        if v.None? || rest.None? then None else Some(([v.value] + rest.value.0, rest.value.1))
  }

  function Values(fs: seq<Field>): (vs: seq<nat>)
    ensures |vs| == |fs|
  {
    seq(|fs|, i requires 0 <= i < |fs| => fs[i].value)
  }

  /** One field, its separator, and whatever follows. */
  lemma FieldTextCut(f: Field, rest: string)
    ensures var text := Fixed(f.width, f.value) + f.after + rest; var n := f.width + |f.after|;
            text[..f.width] == Fixed(f.width, f.value) && text[f.width..n] == f.after && text[n..] == rest
  {
  }

  lemma {:induction false} FieldsParse(shape: seq<Field>, fs: seq<Field>, s: string)
    requires SameShape(shape, fs) && Fits(fs)
    ensures ParseFields(shape, FieldsText(fs) + s) == Some((Values(fs), s))
  {
    if fs == [] {
      assert FieldsText(fs) + s == s;
    } else {
      var f := fs[0];
      var rest := FieldsText(fs[1..]) + s;
      assert FieldsText(fs) + s == Fixed(f.width, f.value) + f.after + rest;
      FieldTextCut(f, rest);
      FixedParses(f.width, f.value);
      FieldsParse(shape[1..], fs[1..], s);
      assert Values(fs) == [f.value] + Values(fs[1..]);
    }
  }

  // ----- character replacement

  function Replace(s: string, from: char, to: char): (r: string)
    ensures |r| == |s|
  {
    seq(|s|, i requires 0 <= i < |s| => if s[i] == from then to else s[i])
  }
}

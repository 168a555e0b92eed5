/** Cache keys: "type:id:version", with the version printed digit by digit. */
module CacheKey {
  import opened Prelude

  newtype int64 = n: int | -0x8000_0000_0000_0000 <= n < 0x8000_0000_0000_0000

  const MIN64: int64 := -0x8000_0000_0000_0000

  /** Negation as the machine does it: the least value is its own negation. */
  function Negated(n: int64): int64 {
    if n == MIN64 then MIN64 else -n
  }

  function Digit(d: int): char
    requires 0 <= d < 10
  {
    ('0' as int + d) as char
  }

  /** The decimal digits of a positive number; none for zero. */
  function Digits(n: nat): (s: string)
    ensures forall i :: 0 <= i < |s| ==> '0' <= s[i] <= '9'
    ensures n > 0 ==> s != []
  {
    if n == 0 then [] else Digits(n / 10) + [Digit(n % 10)]
  }

  /** What the printer gives: the least value comes out as a bare sign. */
  function Printed(n: int64): (s: string)
    ensures ':' !in s && s != []
  {
    if n == 0 then "0"
    else if n == MIN64 then "-"
    else if n < 0 then "-" + Digits(-(n as int))
    else Digits(n as int)
  }

  function Power10(k: nat): nat {
    if k == 0 then 1 else 10 * Power10(k - 1)
  }

  lemma {:induction false} Power10Grows(j: nat, k: nat)
    requires j <= k
    ensures 1 <= Power10(j) <= Power10(k)
    decreases k
  {
    if j < k { Power10Grows(j, k - 1); } else if k > 0 { Power10Grows(j - 1, k - 1); }
  }

  lemma Nineteen()
    ensures Power10(19) == 10_000_000_000_000_000_000
  {
    assert Power10(4) == 10_000;
    assert Power10(8) == 100_000_000;
    assert Power10(12) == 1_000_000_000_000;
    assert Power10(16) == 10_000_000_000_000_000;
  }

  lemma Tenth(m: nat, k: nat)
    requires k >= 1 && m < Power10(k)
    ensures m / 10 < Power10(k - 1)
  {
  }

  lemma LastDigit(m: nat, tail: string)
    requires m > 0
    ensures Digits(m) + tail == Digits(m / 10) + ([Digit(m % 10)] + tail)
  {
  }

  /** Fills a scratch array of twenty digits from its end; the index never leaves it. */
  method DigitsOf(number: int64) returns (r: string)
    ensures r == if number > 0 then Digits(number as int) else []
  {
    var digits := new char[20];
    var n, i := number, 20;
    ghost var left: nat := if number > 0 then number as int else 0;
    ghost var start := left;
    Nineteen();
    assert digits[20..] == [];
    while n > 0
      invariant 1 <= i <= 20 && left == (if n > 0 then n as int else 0) && left < Power10(i - 1)
      invariant Digits(start) == Digits(left) + digits[i..]
      decreases left
    {
      Tenth(left, i - 1);
      ghost var tail := digits[i..];
      i := i - 1;
      digits[i] := Digit((n % 10) as int);
      assert digits[i..] == [Digit(left % 10)] + tail;
      LastDigit(left, tail);
      n := n / 10;
      left := left / 10;
    }
    r := digits[i..];
    assert Digits(0) + r == r;
  }

  method AppendInt64(buf: string, number: int64) returns (r: string)
    ensures r == buf + Printed(number)
    ensures number == MIN64 ==> r == buf + "-"
  {
    if number == 0 { return buf + "0"; }
    var sign, n := "", number;
    if n < 0 {
      sign, n := "-", Negated(n);
    }
    var digits := DigitsOf(n);
    r := buf + (sign + digits);
    assert sign + digits == Printed(number);
  }

  // ----- Reading a number back -----

  function ParseDigits(s: string): int
    requires forall i :: 0 <= i < |s| ==> '0' <= s[i] <= '9'
  {
    if s == [] then 0 else 10 * ParseDigits(s[..|s| - 1]) + (s[|s| - 1] as int - '0' as int)
  }

  predicate AllDigits(s: string) {
    s != [] && forall i :: 0 <= i < |s| ==> '0' <= s[i] <= '9'
  }

  function Parse(s: string): Option<int> {
    if AllDigits(s) then Some(ParseDigits(s))
    else if s != [] && s[0] == '-' && AllDigits(s[1..]) then Some(-ParseDigits(s[1..]))
    else None
  }

  lemma {:induction false} ParseDigitsInverts(n: nat)
    ensures ParseDigits(Digits(n)) == n
    decreases n
  {
    if n > 0 {
      ParseDigitsInverts(n / 10);
      assert Digits(n)[..|Digits(n)| - 1] == Digits(n / 10);
    }
  }

  lemma ParseSigned(d: string, s: string, n: int)
    requires AllDigits(d) && s == "-" + d && ParseDigits(d) == -n
    ensures Parse(s) == Some(n)
  {
    assert s[0] == '-' && s[1..] == d && !AllDigits(s);
  }

  lemma PositiveRead(n: int64)
    requires n > 0
    ensures Parse(Printed(n)) == Some(n as int)
  {
    ParseDigitsInverts(n as int);
  }

  lemma NegativeRead(n: int64)
    requires MIN64 < n < 0
    ensures Parse(Printed(n)) == Some(n as int)
  {
    var i: int := n as int;
    var m: nat := -i;
    ParseDigitsInverts(m);
    ParseSigned(Digits(m), Printed(n), i);
  }

  /** Printing loses nothing, except on the least value, which cannot be read back. */
  lemma PrintingInverts(n: int64)
    ensures Parse(Printed(n)) == Some(n as int) <==> n != MIN64
  {
    if n == MIN64 {
      BareSign();
    } else if n < 0 {
      NegativeRead(n);
    } else if n > 0 {
      PositiveRead(n);
    } else {
      BareZero();
    }
  }

  lemma BareSign()
    ensures Parse("-") == None
  {
    var sign := "-";
    assert sign[0] == '-' && sign[1..] == [];
  }

  lemma BareZero()
    ensures Parse("0") == Some(0)
  {
    var zero := "0";
    assert AllDigits(zero) && zero[..0] == [];
  }

  lemma PrintingInjective(m: int64, n: int64)
    requires Printed(m) == Printed(n)
    ensures m == n
  {
    PrintingInverts(m);
    PrintingInverts(n);
  }

  // ----- Keys -----

  function Key(entityType: string, entityID: string, version: int64): string {
    entityType + ":" + entityID + ":" + Printed(version)
  }

  /** A separator splits a string in one way if what is before it has none. */
  lemma FirstColon(a: string, x: string, b: string, y: string)
    requires ':' !in a && ':' !in b && a + ":" + x == b + ":" + y
    ensures a == b && x == y
  {
    var s := a + ":" + x;
    assert s[|a|] == ':' && (b + ":" + y)[|b|] == ':';
    assert forall k :: 0 <= k < |a| ==> s[k] == a[k];
    assert forall k :: 0 <= k < |b| ==> s[k] == b[k];
    assert |a| == |b|;
    assert s[..|a|] == a && s[..|b|] == b && s[|a| + 1..] == x && s[|b| + 1..] == y;
  }

  /** The same if what is after it has none. */
  lemma LastColon(x: string, a: string, y: string, b: string)
    requires ':' !in a && ':' !in b && x + ":" + a == y + ":" + b
    ensures x == y && a == b
  {
    var s := x + ":" + a;
    assert s == y + ":" + b && s[|x|] == ':' && s[|y|] == ':';
    assert forall k :: |x| < k < |s| ==> s[k] == a[k - |x| - 1];
    assert forall k :: |y| < k < |s| ==> s[k] == b[k - |y| - 1];
    assert |x| == |y|;
    assert s[..|x|] == x && s[..|y|] == y && s[|x| + 1..] == a && s[|y| + 1..] == b;
  }

  /** Two versions share a key exactly when they have the same number and their entities are
      written alike; entity types without a colon leave no two entities that are. */
  lemma KeyInjective(t: string, i: string, v: int64, t': string, i': string, v': int64)
    ensures Key(t, i, v) == Key(t', i', v') <==> t + ":" + i == t' + ":" + i' && v == v'
    ensures ':' !in t && ':' !in t' ==> (Key(t, i, v) == Key(t', i', v') <==> t == t' && i == i' && v == v')
  {
    if Key(t, i, v) == Key(t', i', v') {
      LastColon(t + ":" + i, Printed(v), t' + ":" + i', Printed(v'));
      PrintingInjective(v, v');
      if ':' !in t && ':' !in t' { FirstColon(t, i, t', i'); }
    }
  }

  function EntityPrefix(entityType: string, entityID: string): string {
    entityType + ":" + entityID + ":"
  }

  lemma PrefixBeforeColon(x: string, y: string, p: string)
    requires ':' !in p
    ensures x + ":" <= y + ":" + p <==> x == y || x + ":" <= y
  {
    var k := y + ":" + p;
    if x + ":" <= k {
      assert k[|x|] == ':';
      assert forall j :: |y| < j < |k| ==> k[j] == p[j - |y| - 1];
      assert |x| <= |y|;
      if |x| == |y| { assert x == k[..|x|] == y; } else { assert x + ":" == k[..|x| + 1] == y[..|x| + 1]; }
    }
    if x == y { assert k == x + ":" + p; }
    if x + ":" <= y { assert k == x + ":" + (y[|x| + 1..] + ":" + p); }
  }

  /** Entities that are written alike, or the second like the first and more after a colon. */
  predicate Covers(t: string, i: string, t': string, i': string) {
    t + ":" + i == t' + ":" + i' || t + ":" + i + ":" <= t' + ":" + i'
  }

  /** The keys that start with an entity's prefix are those of its versions and those of
      entities whose identifier continues its own after a colon. */
  lemma PrefixMeans(t: string, i: string, t': string, i': string, v': int64)
    ensures EntityPrefix(t, i) <= Key(t', i', v') <==> Covers(t, i, t', i')
    ensures ':' !in t && ':' !in t' ==> (Covers(t, i, t', i') <==> t == t' && (i == i' || i + ":" <= i'))
  {
    PrefixBeforeColon(t + ":" + i, t' + ":" + i', Printed(v'));
    if ':' !in t && ':' !in t' { CoversPlain(t, i, t', i'); }
  }

  lemma CoversPlain(t: string, i: string, t': string, i': string)
    requires ':' !in t && ':' !in t'
    ensures Covers(t, i, t', i') <==> t == t' && (i == i' || i + ":" <= i')
  {
    if t + ":" + i == t' + ":" + i' { FirstColon(t, i, t', i'); }
    if t + ":" + i + ":" <= t' + ":" + i' {
      var rest := (t' + ":" + i')[|t + ":" + i + ":"|..];
      assert t + ":" + (i + ":" + rest) == t' + ":" + i';
      FirstColon(t, i + ":" + rest, t', i');
    }
    if t == t' && i + ":" <= i' { assert t' + ":" + i' == t + ":" + i + ":" + i'[|i| + 1..]; }
  }
}

/** Text operations shared by the data plane: affixes, decimal numerals, separators and newline-terminated lines. */
module Text {

  predicate StartsWith(s: string, prefix: string) {
    prefix <= s
  }

  predicate EndsWith(s: string, suffix: string) {
    |suffix| <= |s| && s[|s| - |suffix|..] == suffix
  }

  predicate IsAscii(s: string) {
    forall i :: 0 <= i < |s| ==> s[i] as int < 128
  }

  // ---------- decimal numerals ----------

  function Digit(d: nat): char
    requires d < 10
  {
    ('0' as int + d) as char
  }

  function DecimalNat(n: nat): string {
    if n < 10 then [Digit(n)] else DecimalNat(n / 10) + [Digit(n % 10)]
  }

  /** How an f-string prints an integer. */
  function Decimal(n: int): string {
    if n < 0 then "-" + DecimalNat(-n) else DecimalNat(n)
  }

  predicate AllDigits(s: string) {
    forall i :: 0 <= i < |s| ==> '0' <= s[i] <= '9'
  }

  function ParseNat(s: string): nat
    requires AllDigits(s)
  {
    if s == "" then 0 else 10 * ParseNat(s[..|s| - 1]) + (s[|s| - 1] as int - '0' as int)
  }

  function ParseDecimal(s: string): int {
    if s != "" && s[0] == '-' then
      if AllDigits(s[1..]) then 0 - ParseNat(s[1..]) else 0
    else
      if AllDigits(s) then ParseNat(s) else 0
  }

  lemma {:induction false} ParseDecimalNat(n: nat)
    ensures DecimalNat(n) != "" && AllDigits(DecimalNat(n)) && ParseNat(DecimalNat(n)) == n
  {
    if n < 10 {
      assert DecimalNat(n)[..0] == "";
    } else {
      ParseDecimalNat(n / 10);
      assert DecimalNat(n)[..|DecimalNat(n)| - 1] == DecimalNat(n / 10);
    }
  }

  /** A printed integer reads back as itself, and is made of digits and at most one sign. */
  lemma DecimalRoundTrip(n: int)
    ensures ParseDecimal(Decimal(n)) == n
    ensures '\n' !in Decimal(n)
    ensures n >= 0 ==> '.' !in Decimal(n)
  {
    ParseDecimalNat(if n < 0 then -n else n);
    if n < 0 {
      assert Decimal(n)[1..] == DecimalNat(-n);
    }
  }

  /** A numeral is written most significant digit first, without leading zeros, a negative one behind a sign. */
  lemma DecimalDigits(n: nat, d: nat)
    requires d < 10
    ensures Decimal(d) == ["0123456789"[d]]
    ensures n > 0 ==> Decimal(10 * n + d) == Decimal(n) + ["0123456789"[d]] && Decimal(0 - n) == "-" + Decimal(n)
  {
    assert (10 * n + d) / 10 == n && (10 * n + d) % 10 == d;
    assert forall k: nat :: k < 10 ==> Digit(k) == "0123456789"[k];
  }

  // ---------- splitting at a separator ----------

  function Split(s: string, c: char): (parts: seq<string>)
    ensures |parts| >= 1
  {
    if s == "" then [""]
    else if s[0] == c then [""] + Split(s[1..], c)
    else
      var rest := Split(s[1..], c);
      [[s[0]] + rest[0]] + rest[1..]
  }

  lemma {:induction false} SplitLast(a: string, c: char)
    requires c !in a
    ensures Split(a, c) == [a]
  {
    if a != "" {
      SplitLast(a[1..], c);
      assert a == [a[0]] + a[1..];
    }
  }

  lemma {:induction false} SplitCons(a: string, c: char, b: string)
    requires c !in a
    ensures Split(a + [c] + b, c) == [a] + Split(b, c)
  {
    var s := a + [c] + b;
    if a == "" {
      assert s[1..] == b;
    } else {
      assert s[1..] == a[1..] + [c] + b;
      SplitCons(a[1..], c, b);
      assert s[0] == a[0] && a == [a[0]] + a[1..];
    }
  }

  // ---------- newline-terminated lines ----------

  function Lines(fields: seq<string>): string {
    if fields == [] then "" else fields[0] + "\n" + Lines(fields[1..])
  }

  ghost predicate NewlineFree(fields: seq<string>) {
    forall i :: 0 <= i < |fields| ==> '\n' !in fields[i]
  }

  function Newlines(s: string): nat {
    if s == "" then 0 else (if s[0] == '\n' then 1 else 0) + Newlines(s[1..])
  }

  lemma {:induction false} NewlinesConcat(a: string, b: string)
    ensures Newlines(a + b) == Newlines(a) + Newlines(b)
  {
    if a == "" {
      assert a + b == b;
    } else {
      assert (a + b)[1..] == a[1..] + b;
      NewlinesConcat(a[1..], b);
    }
  }

  lemma {:induction false} NewlinesZero(s: string)
    ensures Newlines(s) == 0 <==> '\n' !in s
  {
    if s != "" {
      NewlinesZero(s[1..]);
      assert s == [s[0]] + s[1..];
    }
  }

  /** Every line ends in one newline of its own, so the newlines in excess are those inside the fields. */
  lemma {:induction false} NewlinesOfLines(fields: seq<string>)
    ensures Newlines(Lines(fields)) >= |fields|
    ensures Newlines(Lines(fields)) == |fields| <==> NewlineFree(fields)
  {
    if fields != [] {
      NewlinesOfLines(fields[1..]);
      NewlinesConcat(fields[0] + "\n", Lines(fields[1..]));
      NewlinesConcat(fields[0], "\n");
      NewlinesZero(fields[0]);
      assert Newlines("\n") == 1;
      assert NewlineFree(fields) <==> '\n' !in fields[0] && NewlineFree(fields[1..]) by {
        assert forall i :: 0 <= i < |fields[1..]| ==> fields[1..][i] == fields[i + 1];
        assert forall i :: 1 <= i < |fields| ==> fields[i] == fields[1..][i - 1];
      }
    }
  }

  lemma {:induction false} LinesOfNewlineFree(a: seq<string>, b: seq<string>)
    requires |a| == |b| && NewlineFree(a) && NewlineFree(b)
    requires Lines(a) == Lines(b)
    ensures a == b
  {
    if a != [] {
      var s := Lines(a);
      assert s[|a[0]|] == '\n' && s[|b[0]|] == '\n';
      assert s[..|a[0]|] == a[0] && s[..|b[0]|] == b[0];
      assert |a[0]| == |b[0]|;
      assert s[|a[0]| + 1..] == Lines(a[1..]);
      assert s[|b[0]| + 1..] == Lines(b[1..]);
      LinesOfNewlineFree(a[1..], b[1..]);
      assert a == [a[0]] + a[1..] && b == [b[0]] + b[1..];
    }
  }

  /**
   * Two lists of the same length that print alike are equal as soon as ONE of them
   * is newline-free: the number of newlines then forces the other to be so too.
   */
  lemma LinesInjective(a: seq<string>, b: seq<string>)
    requires |a| == |b| && NewlineFree(a)
    requires Lines(a) == Lines(b)
    ensures a == b
  {
    NewlinesOfLines(a);
    NewlinesOfLines(b);
    LinesOfNewlineFree(a, b);
  }
}

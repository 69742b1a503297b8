/** The pending-id format of vynkor/confirmation_gate.py: `pending-<milliseconds>-<sequence>`. */
module PendingIds {

  function Digit(d: nat): char
    requires d < 10
  {
    ('0' as int + d) as char
  }

  function Decimal(n: nat): string {
    if n < 10 then [Digit(n)] else Decimal(n / 10) + [Digit(n % 10)]
  }

  /** `int(time.time() * 1000)` printed; a clock before the epoch prints a sign. */
  function SignedDecimal(n: int): string {
    if n < 0 then "-" + Decimal(-n) else Decimal(n)
  }

  function PendingId(wallMs: int, sequence: nat): string {
    "pending-" + SignedDecimal(wallMs) + "-" + Decimal(sequence)
  }

  function DigitValue(c: char): nat {
    if '0' <= c <= '9' then c as int - '0' as int else 0
  }

  function Value(s: string): nat {
    if s == "" then 0 else Value(s[..|s| - 1]) * 10 + DigitValue(s[|s| - 1])
  }

  /** Printing loses nothing and uses no dash. */
  lemma {:induction false} ReadBack(n: nat)
    ensures Value(Decimal(n)) == n
    ensures '-' !in Decimal(n)
  {
    if n < 10 {
      ValueSnoc("", n);
      assert "" + [Digit(n)] == [Digit(n)];
    } else {
      ReadBack(n / 10);
      ValueSnoc(Decimal(n / 10), n % 10);
    }
  }

  lemma ValueSnoc(s: string, d: nat)
    requires d < 10
    ensures Value(s + [Digit(d)]) == Value(s) * 10 + d
    ensures Digit(d) != '-'
  {
    assert (s + [Digit(d)])[..|s|] == s;
  }

  lemma DashInLonger(a: string, x: string, b: string, y: string)
    requires a + "-" + x == b + "-" + y
    requires |x| < |y|
    ensures '-' in y
  {
    var s := a + "-" + x;
    assert s[|a|] == '-';
    assert s[|a|] == y[|a| - |b| - 1];
  }

  /** What follows the last dash is determined by the whole. */
  lemma LastDash(a: string, x: string, b: string, y: string)
    requires a + "-" + x == b + "-" + y
    requires '-' !in x && '-' !in y
    ensures x == y
  {
    if |x| < |y| {
      DashInLonger(a, x, b, y);
    } else if |y| < |x| {
      DashInLonger(b, y, a, x);
    } else {
      assert x == (a + "-" + x)[|a| + 1..] && y == (b + "-" + y)[|b| + 1..];
    }
  }

  /** Whatever the wall clock read, ids with different sequence numbers differ. */
  lemma PendingIdInjective(ms1: int, n1: nat, ms2: int, n2: nat)
    requires PendingId(ms1, n1) == PendingId(ms2, n2)
    ensures n1 == n2
  {
    ReadBack(n1);
    ReadBack(n2);
    LastDash("pending-" + SignedDecimal(ms1), Decimal(n1), "pending-" + SignedDecimal(ms2), Decimal(n2));
  }

  /** What an id looks like. */
  lemma PendingIdShape(wallMs: nat, sequence: nat)
    ensures exists a, b :: PendingId(wallMs, sequence) == "pending-" + a + "-" + b
                           && Value(a) == wallMs && Value(b) == sequence && '-' !in a && '-' !in b
  {
    ReadBack(wallMs);
    ReadBack(sequence);
    assert PendingId(wallMs, sequence) == "pending-" + Decimal(wallMs) + "-" + Decimal(sequence);
  }
}

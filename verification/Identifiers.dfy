/** Attempt and worker names built from a decimal sequence number. */
module Identifiers {
  import opened ByteOrder

  const DIGITS: string := "0123456789"

  /** How a u64 prints: no sign, no leading zero. */
  function Decimal(n: nat): (text: string)
    ensures text != ""
    ensures forall i :: 0 <= i < |text| ==> '0' <= text[i] <= '9'
  {
    if n < 10 then [DIGITS[n]] else Decimal(n / 10) + [DIGITS[n % 10]]
  }

  function AttemptId(operationId: string, sequence: nat): string {
    operationId + "#" + Decimal(sequence)
  }

  function WorkerId(sequence: nat): string {
    "worker-" + Decimal(sequence)
  }

  lemma {:induction false} DecimalIsInjective(m: nat, n: nat)
    ensures Decimal(m) == Decimal(n) ==> m == n
  {
    if Decimal(m) == Decimal(n) {
      var a, b := Decimal(m), Decimal(n);
      assert a[|a| - 1] == DIGITS[m % 10] && b[|b| - 1] == DIGITS[n % 10];
      assert m % 10 == n % 10;
      if m >= 10 && n >= 10 {
        assert a[..|a| - 1] == Decimal(m / 10) && b[..|b| - 1] == Decimal(n / 10);
        DecimalIsInjective(m / 10, n / 10);
      } else {
        DecimalLength(m);
        DecimalLength(n);
      }
    }
  }

  function DigitValue(c: char): nat
    requires '0' <= c <= '9'
  {
    c as nat - '0' as nat
  }

  /** How a run of digits reads. */
  function ReadDecimal(text: string): nat
    requires forall i :: 0 <= i < |text| ==> '0' <= text[i] <= '9'
  {
    if text == "" then 0
    else 10 * ReadDecimal(text[..|text| - 1]) + DigitValue(text[|text| - 1])
  }

  /** A number prints as the digits that read back as it, without a leading zero. */
  lemma {:induction false} DecimalReadsBack(n: nat)
    ensures ReadDecimal(Decimal(n)) == n
    ensures n > 0 ==> Decimal(n)[0] != '0'
  {
    var text := Decimal(n);
    assert DigitValue(DIGITS[n % 10]) == n % 10;
    assert text[|text| - 1] == DIGITS[n % 10];
    if n < 10 {
      assert text[..0] == "";
    } else {
      assert text[..|text| - 1] == Decimal(n / 10);
      DecimalReadsBack(n / 10);
    }
  }

  lemma DecimalLength(n: nat)
    ensures |Decimal(n)| == 1 <==> n < 10
  {
  }

  lemma WorkerIdsDiffer(m: nat, n: nat)
    ensures WorkerId(m) == WorkerId(n) ==> m == n
  {
    if WorkerId(m) == WorkerId(n) {
      assert WorkerId(m)[7..] == Decimal(m) && WorkerId(n)[7..] == Decimal(n);
      DecimalIsInjective(m, n);
    }
  }

  lemma SeparatorIsTheLastHash(op: string, sequence: nat)
    ensures var id := AttemptId(op, sequence);
            && |op| < |id| && id[|op|] == '#'
            && id[..|op|] == op && id[|op| + 1..] == Decimal(sequence)
            && forall i :: |op| < i < |id| ==> id[i] != '#'
  {
    var id := AttemptId(op, sequence);
    forall i | |op| < i < |id| ensures id[i] != '#' {
      assert id[i] == Decimal(sequence)[i - |op| - 1];
    }
  }

  /** The separator that counts is the last one: no digit is a '#', whatever the operation id holds. */
  lemma AttemptIdsDiffer(op1: string, s1: nat, op2: string, s2: nat)
    ensures AttemptId(op1, s1) == AttemptId(op2, s2) ==> op1 == op2 && s1 == s2
  {
    SeparatorIsTheLastHash(op1, s1);
    SeparatorIsTheLastHash(op2, s2);
    DecimalIsInjective(s1, s2);
  }

  /** The ids of workers 1 to n in admission order. */
  function WorkerIds(n: nat): (ids: seq<string>)
    ensures |ids| == n
    ensures forall i :: 0 <= i < n ==> ids[i] == WorkerId(i + 1)
  {
    seq(n, i requires 0 <= i => WorkerId(i + 1))
  }

  lemma WorkerIdsAreDistinct(n: nat)
    ensures forall i, j :: 0 <= i < j < n ==> WorkerIds(n)[i] != WorkerIds(n)[j]
  {
    forall i, j | 0 <= i < j < n ensures WorkerIds(n)[i] != WorkerIds(n)[j] {
      WorkerIdsDiffer(i + 1, j + 1);
    }
  }

  /** Admission order is byte order exactly while the numbers have one digit. */
  lemma AdmissionOrderIsByteOrderUpToNine(n: nat)
    ensures Ascending(WorkerIds(n)) <==> n <= 9
  {
    var ids := WorkerIds(n);
    if n <= 9 {
      forall i, j | 0 <= i < j < n ensures Below(ids[i], ids[j]) {
        PrefixKeepsOrder("worker-", Decimal(i + 1), Decimal(j + 1));
        DigitsAscend(i + 1, j + 1);
      }
    } else {
      assert Decimal(10) == "10" && Decimal(2) == "2";
      assert Below(Decimal(10), Decimal(2));
      PrefixKeepsOrder("worker-", Decimal(10), Decimal(2));
      assert Below(ids[9], ids[1]);
      BelowIsAsymmetric(ids[9], ids[1]);
      assert !Ascending(ids);
    }
  }

  lemma DigitsAscend(m: nat, n: nat)
    requires m < n < 10
    ensures Below(Decimal(m), Decimal(n))
  {
    assert DIGITS[m] < DIGITS[n];
  }

  /** Joining in key order reproduces the admission order for at most nine workers and for no more. */
  lemma JoinOrderEqualsAdmissionOrderUpToNine(n: nat, joined: seq<string>)
    requires Ascending(joined)
    requires forall id :: id in joined <==> id in WorkerIds(n)
    ensures joined == WorkerIds(n) <==> n <= 9
  {
    AdmissionOrderIsByteOrderUpToNine(n);
    if n <= 9 {
      AscendingIsUnique(joined, WorkerIds(n));
    }
  }
}

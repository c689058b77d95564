/** Character-level helpers: decimal rendering of integers (what `%d` and
    `%lli` print) and joining strings with a separator. */
module Text {

  function DigitChar(d: nat): (c: char)
    requires d < 10
    ensures '0' <= c <= '9'
  {
    "0123456789"[d]
  }

  /** The decimal representation of `n`, with a leading '-' when negative. */
  function DecimalString(n: int): (s: string)
    ensures |s| >= 1
    ensures n >= 0 ==> forall i :: 0 <= i < |s| ==> '0' <= s[i] <= '9'
    ensures n < 0 ==> s[0] == '-'
    decreases if n < 0 then -n + 1 else n
  {
    if n < 0 then "-" + DecimalString(-n)
    else if n < 10 then [DigitChar(n)]
    else DecimalString(n / 10) + [DigitChar(n % 10)]
  }

  function Pow10(k: nat): (p: nat)
    ensures p >= 1
  {
    if k == 0 then 1 else 10 * Pow10(k - 1)
  }

  /** A number with k digits lies in [10^(k-1), 10^k). */
  lemma {:induction false} DecimalLength(n: nat, k: nat)
    requires 1 <= k
    requires (if k == 1 then 0 else Pow10(k - 1)) <= n < Pow10(k)
    ensures |DecimalString(n)| == k
  {
    if k > 1 {
      if k == 2 {
        assert 1 <= n / 10 < 10;
      } else {
        assert Pow10(k - 2) <= n / 10 < Pow10(k - 1);
      }
      DecimalLength(n / 10, k - 1);
    }
  }

  /** Negative numbers take one character more than their magnitude. */
  lemma NegativeDecimalLength(n: int)
    requires n < 0
    ensures |DecimalString(n)| == 1 + |DecimalString(-n)|
  {
  }

  /** `parts[0] + sep + parts[1] + ... + parts[|parts|-1]`. */
  function Join(sep: string, parts: seq<string>): (s: string)
  {
    if parts == [] then ""
    else if |parts| == 1 then parts[0]
    else parts[0] + sep + Join(sep, parts[1..])
  }

  /** Every part followed by the separator: the text written before the last part. */
  function Terminated(sep: string, parts: seq<string>): (s: string)
  {
    if parts == [] then "" else Terminated(sep, parts[..|parts| - 1]) + parts[|parts| - 1] + sep
  }

  /** Joining is writing every part but the last with its separator, then the last one. */
  lemma {:induction false} JoinIsTerminatedPlusLast(sep: string, parts: seq<string>)
    requires parts != []
    ensures Join(sep, parts) == Terminated(sep, parts[..|parts| - 1]) + parts[|parts| - 1]
    decreases |parts|
  {
    if |parts| > 1 {
      var rest := parts[1..];
      JoinIsTerminatedPlusLast(sep, rest);
      TerminatedCons(sep, parts[0], rest[..|rest| - 1]);
      assert [parts[0]] + rest[..|rest| - 1] == parts[..|parts| - 1];
      assert rest[|rest| - 1] == parts[|parts| - 1];
    }
  }

  lemma {:induction false} TerminatedCons(sep: string, p: string, parts: seq<string>)
    ensures Terminated(sep, [p] + parts) == p + sep + Terminated(sep, parts)
    decreases |parts|
  {
    if parts != [] {
      var init := parts[..|parts| - 1];
      TerminatedCons(sep, p, init);
      assert ([p] + parts)[..|parts|] == [p] + init;
    }
  }

  /** Writing the next part and a separator extends the terminated prefix. */
  lemma TerminatedStep(sep: string, parts: seq<string>, i: nat)
    requires i < |parts|
    ensures Terminated(sep, parts[..i]) + parts[i] + sep == Terminated(sep, parts[..i + 1])
  {
    assert parts[..i + 1][..i] == parts[..i];
  }

  /** Writing the last part after the terminated prefix completes the join. */
  lemma JoinStep(sep: string, parts: seq<string>, i: nat)
    requires i + 1 == |parts|
    ensures Terminated(sep, parts[..i]) + parts[i] == Join(sep, parts)
  {
    JoinIsTerminatedPlusLast(sep, parts);
  }

  /** Total length of a joined string. */
  function SumLengths(parts: seq<string>): nat
  {
    if parts == [] then 0 else |parts[0]| + SumLengths(parts[1..])
  }

  lemma {:induction false} JoinLength(sep: string, parts: seq<string>)
    requires parts != []
    ensures |Join(sep, parts)| == SumLengths(parts) + (|parts| - 1) * |sep|
    decreases |parts|
  {
    if |parts| > 1 {
      JoinLength(sep, parts[1..]);
    }
  }
}

/**
  Case identifiers: `next_case_id` renders the global counter as `#`
  followed by the counter zero-padded to at least four digits
  (`f"#{n:04d}"`). `ParseCaseId` is the inverse used to state that the
  rendering loses nothing, so distinct counter values give distinct ids.
 */
module CaseIds {
  import opened Wrappers
  import opened Decimal

  const Width: nat := 4

  function Zeros(k: nat): (z: string)
    ensures |z| == k && AllZeros(z)
  {
    seq(k, _ => '0')
  }

  /** Left-pads a digit string with zeros up to `width` characters (the `0w` of a format spec). */
  function ZeroPad(s: string, width: nat): (r: string)
    ensures |r| == if |s| < width then width else |s|
    ensures r[|r| - |s|..] == s && AllZeros(r[..|r| - |s|])
  {
    if |s| < width then Zeros(width - |s|) + s else s
  }

  /** The id handed out when the counter reaches `n`: `#` and at least four characters after it. */
  function FormatCaseId(n: nat): (id: string)
    ensures |id| >= 1 + Width && id[0] == '#'
  {
    "#" + ZeroPad(Digits(n), Width)
  }

  /** An id is `#` and at least four digits; exactly four below 10000, and no padding from 1000 on. */
  lemma FormatCaseIdShape(n: nat)
    ensures var id := FormatCaseId(n);
      && AllDigits(id[1..])
      && (n < 10000 ==> |id| == 1 + Width)
      && (n >= 1000 ==> id == "#" + Digits(n))
  {
    DigitsLength(n);
    var id := FormatCaseId(n);
    assert id[1..] == ZeroPad(Digits(n), Width);
  }

  /** `Digits(n)` has k+1 characters exactly when 10^k <= n < 10^(k+1). */
  lemma {:induction false} DigitsLength(n: nat)
    ensures |Digits(n)| <= 4 <==> n < 10000
    ensures |Digits(n)| >= 4 <==> n >= 1000
    decreases n
  {
    if n >= 10 {
      DigitsLength(n / 10);
    }
  }

  /** Reads an id back: `#` followed by at least one decimal digit. */
  function ParseCaseId(id: string): Option<nat>
  {
    if |id| >= 2 && id[0] == '#' && AllDigits(id[1..]) then Some(Value(id[1..])) else None
  }

  /** Every rendered id reads back as the counter value it was made from. */
  lemma FormatParseRoundTrip(n: nat)
    ensures ParseCaseId(FormatCaseId(n)) == Some(n)
  {
    var p := ZeroPad(Digits(n), Width);
    assert FormatCaseId(n)[1..] == p;
    PaddedValue(Digits(n), Width);
    ValueOfDigits(n);
  }

  /** Zero-padding keeps a digit string's value. */
  lemma PaddedValue(d: string, width: nat)
    requires AllDigits(d)
    ensures AllDigits(ZeroPad(d, width)) && Value(ZeroPad(d, width)) == Value(d)
  {
    if |d| < width {
      ValueIgnoresLeadingZeros(Zeros(width - |d|), d);
    }
  }

  /** Two counter values give the same id exactly when they are equal. */
  lemma FormatCaseIdInjective(a: nat, b: nat)
    ensures FormatCaseId(a) == FormatCaseId(b) <==> a == b
  {
    FormatParseRoundTrip(a);
    FormatParseRoundTrip(b);
  }

  /** The ids handed out while the counter went from 0 to `n`, in order: #0001, #0002, ... */
  function IssuedIds(n: nat): seq<string> {
    seq(n, i requires 0 <= i => FormatCaseId(i + 1))
  }

  /** The id for counter value n + 1 has not been handed out before. */
  lemma NextIdIsFresh(n: nat)
    ensures FormatCaseId(n + 1) !in IssuedIds(n)
    ensures IssuedIds(n + 1) == IssuedIds(n) + [FormatCaseId(n + 1)]
  {
    if FormatCaseId(n + 1) in IssuedIds(n) {
      var i :| 0 <= i < n && IssuedIds(n)[i] == FormatCaseId(n + 1);
      FormatCaseIdInjective(i + 1, n + 1);
    }
  }

  /** No id is handed out twice: the issued ids are pairwise distinct. */
  lemma IssuedIdsDistinct(n: nat)
    ensures forall i, j :: 0 <= i < j < n ==> IssuedIds(n)[i] != IssuedIds(n)[j]
  {
    forall i, j | 0 <= i < j < n
      ensures IssuedIds(n)[i] != IssuedIds(n)[j]
    {
      FormatCaseIdInjective(i + 1, j + 1);
    }
  }

  /** The i-th id handed out reads back as i + 1, so later ids read back as larger numbers. */
  lemma IssuedIdsReadBack(n: nat)
    ensures forall i :: 0 <= i < n ==> ParseCaseId(IssuedIds(n)[i]) == Some(i + 1)
  {
    forall i | 0 <= i < n
      ensures ParseCaseId(IssuedIds(n)[i]) == Some(i + 1)
    {
      FormatParseRoundTrip(i + 1);
    }
  }

  lemma FormatCaseIdExamples()
    ensures FormatCaseId(1) == "#0001"
    ensures FormatCaseId(42) == "#0042"
    ensures FormatCaseId(12345) == "#12345"
  {
    assert Digits(4) == "4" && Digits(42) == Digits(4) + "2";
    assert Digits(12345) == Digits(1234) + "5" && Digits(1234) == Digits(123) + "4";
    assert Digits(123) == Digits(12) + "3" && Digits(12) == Digits(1) + "2";
  }
}

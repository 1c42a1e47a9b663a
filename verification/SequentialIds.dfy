/** Sequential ids of the form `<prefix><number>`, the number padded to three digits. */
module SequentialIds {
  import opened Base

  predicate IsDigit(c: char) {
    '0' <= c <= '9'
  }

  function DigitValue(c: char): (v: nat)
    requires IsDigit(c)
    ensures v < 10
  {
    c as int - '0' as int
  }

  function DigitChar(v: nat): (c: char)
    requires v < 10
    ensures IsDigit(c) && DigitValue(c) == v
  {
    ('0' as int + v) as char
  }

  predicate AllDigits(s: string) {
    forall i :: 0 <= i < |s| ==> IsDigit(s[i])
  }

  /** What a string of decimal digits says. */
  function NumberOf(s: string): nat
    requires AllDigits(s)
  {
    if s == [] then 0 else NumberOf(s[..|s| - 1]) * 10 + DigitValue(s[|s| - 1])
  }

  /** The decimal digits of a number. */
  function Decimal(n: nat): (s: string)
    ensures s != [] && AllDigits(s)
  {
    if n < 10 then [DigitChar(n)] else Decimal(n / 10) + [DigitChar(n % 10)]
  }

  function Padded(s: string): (p: string)
    ensures |p| >= 3 && |p| >= |s|
    decreases 3 - |s|
  {
    if |s| >= 3 then s else Padded(['0'] + s)
  }

  /** Short numbers are filled up with zeros to three digits, longer ones stay as they are. */
  lemma PaddedMeans(s: string)
    ensures |s| >= 3 ==> Padded(s) == s
    ensures |s| == 2 ==> Padded(s) == "0" + s
    ensures |s| == 1 ==> Padded(s) == "00" + s
  {
    if |s| == 1 {
      assert Padded(s) == Padded("0" + s);
      assert Padded("0" + s) == Padded("0" + ("0" + s));
    } else if |s| == 2 {
      assert Padded(s) == Padded("0" + s);
    }
  }

  function Format(prefix: string, n: nat): string {
    prefix + Padded(Decimal(n))
  }

  /** The number of an id, if it is the prefix followed by digits and nothing else. */
  function Parse(prefix: string, id: string): Option<nat> {
    if |id| > |prefix| && id[..|prefix|] == prefix && AllDigits(id[|prefix|..]) then Some(NumberOf(id[|prefix|..])) else None
  }

  lemma {:induction false} DecimalRoundTrip(n: nat)
    ensures NumberOf(Decimal(n)) == n
  {
    if n >= 10 {
      DecimalRoundTrip(n / 10);
      assert Decimal(n)[..|Decimal(n)| - 1] == Decimal(n / 10);
    }
  }

  lemma {:induction false} LeadingZero(s: string)
    requires AllDigits(s)
    ensures AllDigits(['0'] + s) && NumberOf(['0'] + s) == NumberOf(s)
  {
    if s == [] {
      assert ['0'] + s == ['0'];
      assert ['0'][..0] == [];
    } else {
      LeadingZero(s[..|s| - 1]);
      assert (['0'] + s)[..|s|] == ['0'] + s[..|s| - 1];
    }
  }

  lemma {:induction false} PaddingKeepsNumber(s: string)
    requires AllDigits(s)
    ensures AllDigits(Padded(s)) && NumberOf(Padded(s)) == NumberOf(s)
    decreases 3 - |s|
  {
    if |s| < 3 {
      LeadingZero(s);
      PaddingKeepsNumber(['0'] + s);
    }
  }

  /** Reading an allocated id gives back its number. */
  lemma FormatRoundTrip(prefix: string, n: nat)
    ensures Parse(prefix, Format(prefix, n)) == Some(n)
  {
    DecimalRoundTrip(n);
    PaddingKeepsNumber(Decimal(n));
    assert Format(prefix, n)[|prefix|..] == Padded(Decimal(n));
  }

  /** The highest number among ids that have one, or 0. */
  function Highest(prefix: string, ids: seq<string>): (max: nat)
    ensures forall id :: id in ids && Parse(prefix, id).Some? ==> Parse(prefix, id).value <= max
  {
    if ids == [] then 0
    else
      var front, last := Highest(prefix, ids[..|ids| - 1]), Parse(prefix, ids[|ids| - 1]);
      assert ids == ids[..|ids| - 1] + [ids[|ids| - 1]];
      if last.Some? && last.value > front then last.value else front
  }

  function NextId(prefix: string, ids: seq<string>): string {
    Format(prefix, Highest(prefix, ids) + 1)
  }

  /** The next id is new, whatever strings are already in use. */
  lemma NextIdIsFresh(prefix: string, ids: seq<string>)
    ensures NextId(prefix, ids) !in ids
  {
    FormatRoundTrip(prefix, Highest(prefix, ids) + 1);
  }

  method AllocateId(prefix: string, ids: seq<string>) returns (id: string)
    ensures id == NextId(prefix, ids) && id !in ids
  {
    var max := 0;
    for n := 0 to |ids|
      invariant max == Highest(prefix, ids[..n])
    {
      assert ids[..n + 1][..n] == ids[..n];
      var number := Parse(prefix, ids[n]);
      if number.None? {
        continue;
      }
      if number.value > max {
        max := number.value;
      }
    }
    assert ids[..|ids|] == ids;
    NextIdIsFresh(prefix, ids);
    return Format(prefix, max + 1);
  }
}

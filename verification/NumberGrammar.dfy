/** The shape of spoken numbers, by arithmetic on the number: where scales and "and" stand. */
module NumberGrammar {
  import opened NumberWords

  /** A group of three digits: hundreds, then "and" before whatever is below a hundred. */
  function GroupWords(hundreds: nat, rest: nat): seq<Word> {
    if hundreds == 0 then BelowHundred(rest)
    else if rest == 0 then [Small(hundreds), Hundred]
    else [Small(hundreds), Hundred, And] + BelowHundred(rest)
  }

  function BelowHundred(n: nat): seq<Word> {
    if n < 20 then [Small(n)]
    else if n % 10 == 0 then [Tens(n / 10)]
    else [Tens(n / 10), Small(n % 10)]
  }

  function Scaled(k: nat): seq<Word> {
    if k == 0 then [] else [Scale(k)]
  }

  /** The non-zero groups of q, the lowest of which counts powers k of a thousand, each with its scale. */
  function Groups(q: nat, k: nat): seq<Word> {
    if q == 0 then []
    else Groups(q / 1000, k + 1)
         + if q % 1000 == 0 then [] else GroupWords(q % 1000 / 100, q % 100) + Scaled(k)
  }

  /** The place of the lowest group that is not zero. */
  function LowestGroup(n: nat): nat
    requires n > 0
  {
    if n % 1000 != 0 then 0 else 1 + LowestGroup(n / 1000)
  }

  /** n without its lowest groups, all of which are zero. */
  function Stripped(n: nat): nat
    requires n > 0
    ensures Stripped(n) > 0 && Stripped(n) % 1000 != 0
  {
    if n % 1000 != 0 then n else Stripped(n / 1000)
  }

  lemma {:induction false} StrippedMeans(n: nat)
    requires n > 0
    ensures n == Stripped(n) * Power(LowestGroup(n))
  {
    if n % 1000 == 0 {
      StrippedMeans(n / 1000);
      OneGroupMore(n, Stripped(n / 1000), Power(LowestGroup(n / 1000)));
    }
  }

  lemma OneGroupMore(n: nat, a: nat, p: nat)
    requires n % 1000 == 0 && n / 1000 == a * p
    ensures n == a * (1000 * p)
  {
    assert a * (1000 * p) == 1000 * (a * p);
  }

  lemma GroupsMean(value: nat)
    requires value < 1000
    ensures UnderThousand(value) == GroupWords(value / 100, value % 100)
  {
  }

  lemma {:induction false} SpokenIsGroups(q: nat, k: nat)
    ensures Spoken(Chunks(q, k)) == Groups(q, k)
    decreases q
  {
    hide UnderThousand, GroupWords;
    ChunkSpoken(q, k);
    if q > 0 {
      SpokenIsGroups(q / 1000, k + 1);
      GroupsMean(q % 1000);
    }
  }

  /** The chunks of n: those above its lowest non-zero group, and that group. */
  lemma {:induction false} ChunksSplit(n: nat, k: nat)
    requires n > 0
    ensures var low := Stripped(n);
            Chunks(n, k) == Chunks(low / 1000, k + LowestGroup(n) + 1) + [ChunkOf(low % 1000, k + LowestGroup(n))]
  {
    if n % 1000 == 0 {
      ChunksSplit(n / 1000, k + 1);
      assert Chunks(n, k) == Chunks(n / 1000, k + 1) + [];
    }
  }

  lemma NoChunksMeansZero(q: nat, k: nat)
    ensures Chunks(q, k) == [] <==> q == 0
    decreases q
  {
    if q > 0 { NoChunksMeansZero(q / 1000, k + 1); }
  }

  /**
   * Below 10^15 a number is spoken group by group, with "and" between its higher groups and the last
   * one spoken exactly when that is below a hundred.
   */
  lemma CardinalIsGrammatical(n: nat)
    requires 0 < n < 1_000_000_000_000_000
    ensures n == Stripped(n) * Power(LowestGroup(n))
    ensures var j, high, low := LowestGroup(n), Stripped(n) / 1000, Stripped(n) % 1000;
            Cardinal(n) == Groups(high, j + 1)
                           + (if high > 0 && low < 100 then [And] else [])
                           + (GroupWords(low / 100, low % 100) + Scaled(j))
  {
    hide Groups, GroupWords, UnderThousand, Chunks, Spoken, Power, Stripped, LowestGroup, Assemble;
    StrippedMeans(n);
    var j, high, low := LowestGroup(n), Stripped(n) / 1000, Stripped(n) % 1000;
    ChunksSplit(n, 0);
    AssembleSplit(Chunks(high, j + 1), ChunkOf(low, j));
    NoChunksMeansZero(high, j + 1);
    SpokenIsGroups(high, j + 1);
    GroupsMean(low);
  }

  lemma AssembleSplit(above: seq<Chunk>, last: Chunk)
    ensures Assemble(above + [last]) ==
            Spoken(above) + (if above != [] && last.0 < 100 then [And] else []) + last.1
  {
    var chunks := above + [last];
    assert chunks[..|chunks| - 1] == above;
  }

  /** From 10^15 on a number is spoken digit by digit, without a leading zero. */
  lemma {:induction false} LargeIsDigitByDigit(n: nat)
    requires n >= 1_000_000_000_000_000
    ensures AllDigits(Cardinal(n)) && ReadDigits(Cardinal(n)) == n && Cardinal(n)[0] != Small(0)
  {
    ReadDigitsUndoes(n);
    NoLeadingZero(n);
  }

  lemma {:induction false} NoLeadingZero(n: nat)
    requires n > 0
    ensures Digits(n) != [] && Digits(n)[0] != 0
  {
    if n >= 10 { NoLeadingZero(n / 10); }
  }

  /** Zero is "zero", and a negative number is its opposite behind "minus". */
  lemma SignsAreSpoken(n: int)
    ensures n == 0 ==> Cardinal(n) == [Small(0)]
    ensures n < 0 ==> Cardinal(n) == [Minus] + Cardinal(-n)
  {
  }
}

/** Numbers as spoken English, and the readers that undo them. */
module NumberWords {

  datatype Word =
    | Small(n: nat)    // zero .. nineteen
    | Tens(k: nat)     // twenty .. ninety, by number of tens
    | Hundred
    | Scale(k: nat)    // thousand .. trillion, by power of a thousand
    | And
    | Minus

  // ----- printing -----

  function UnderThousand(value: nat): seq<Word>
    requires value < 1000
  {
    if value < 20 then [Small(value)]
    else if value < 100 then [Tens(value / 10)] + if value % 10 != 0 then [Small(value % 10)] else []
    else [Small(value / 100), Hundred] + if value % 100 != 0 then [And] + UnderThousand(value % 100) else []
  }

  function Digits(value: nat): seq<nat> {
    if value < 10 then [value] else Digits(value / 10) + [value % 10]
  }

  function DigitWords(value: nat): seq<Word> {
    var digits := Digits(value);
    seq(|digits|, i requires 0 <= i < |digits| => Small(digits[i]))
  }

  /** A three-digit group that is not zero, with its spoken form. */
  type Chunk = (nat, seq<Word>)

  function ChunkOf(group: nat, k: nat): Chunk
    requires group < 1000
  {
    (group, UnderThousand(group) + if k == 0 then [] else [Scale(k)])
  }

  /** The chunks of value, highest first, when its last group counts powers k of a thousand. */
  function Chunks(value: nat, k: nat): seq<Chunk> {
    if value == 0 then []
    else Chunks(value / 1000, k + 1) + if value % 1000 != 0 then [ChunkOf(value % 1000, k)] else []
  }

  function Spoken(chunks: seq<Chunk>): seq<Word> {
    if chunks == [] then [] else Spoken(chunks[..|chunks| - 1]) + chunks[|chunks| - 1].1
  }

  /** Joins the chunks; "and" comes before a last chunk below one hundred. */
  function Assemble(chunks: seq<Chunk>): seq<Word> {
    if |chunks| > 1 && chunks[|chunks| - 1].0 < 100
    then Spoken(chunks[..|chunks| - 1]) + [And] + chunks[|chunks| - 1].1
    else Spoken(chunks)
  }

  const LIMIT: nat := 1_000_000_000_000_000

  function Cardinal(value: int): seq<Word>
    decreases value < 0, if value < 0 then -value else value
  {
    if value == 0 then [Small(0)]
    else if value < 0 then [Minus] + Cardinal(-value)
    else if value >= LIMIT then DigitWords(value)
    else Assemble(Chunks(value, 0))
  }

  function Reversed<T>(xs: seq<T>): seq<T> {
    if xs == [] then [] else [xs[|xs| - 1]] + Reversed(xs[..|xs| - 1])
  }

  function Power(k: nat): nat {
    if k == 0 then 1 else 1000 * Power(k - 1)
  }

  lemma ChunkStep(value: nat, k: nat, low: seq<Chunk>)
    requires value > 0
    ensures var group := value % 1000;
            var low' := if group != 0 then low + [ChunkOf(group, k)] else low;
            Chunks(value, k) + Reversed(low) == Chunks(value / 1000, k + 1) + Reversed(low')
  {
    var group := value % 1000;
    if group != 0 {
      assert (low + [ChunkOf(group, k)])[..|low|] == low;
    }
  }

  lemma LimitIsFiveGroups()
    ensures Power(5) == LIMIT && Power(0) == 1
  {
    assert Power(3) == 1_000_000_000;
  }

  /** Peels off groups of three digits, lowest first, then joins them highest first. */
  method IntegerToWords(value: int) returns (words: seq<Word>)
    ensures words == Cardinal(value)
    decreases value < 0
  {
    hide Chunks, Assemble, ChunkOf, DigitWords, Reversed;
    if value == 0 {
      return [Small(0)];
    }
    if value < 0 {
      words := IntegerToWords(-value);
      return [Minus] + words;
    }
    if value >= LIMIT {
      return DigitWords(value);
    }
    var chunks: seq<Chunk> := [];
    var scaleIndex := 0;
    var remaining := value;
    LimitIsFiveGroups();
    NothingReversed();
    while remaining != 0
      invariant remaining >= 0 && scaleIndex <= 5
      invariant remaining < Power(5 - scaleIndex)
      invariant Chunks(value, 0) == Chunks(remaining, scaleIndex) + Reversed(chunks)
      decreases remaining
    {
      ChunkStep(remaining, scaleIndex, chunks);
      var chunk := remaining % 1000;
      if chunk != 0 {
        chunks := chunks + [ChunkOf(chunk, scaleIndex)];
      }
      remaining := remaining / 1000;
      scaleIndex := scaleIndex + 1;
    }
    NoChunks(scaleIndex);
    assert [] + Reversed(chunks) == Reversed(chunks);
    words := Assemble(Reversed(chunks));
  }

  lemma NothingReversed()
    ensures forall cs: seq<Chunk> :: cs + Reversed([]) == cs
  {
  }

  lemma NoChunks(k: nat)
    ensures Chunks(0, k) == []
  {
  }

  // ----- reading -----

  /** Reads number words left to right; "and" is skipped. */
  function Fold(words: seq<Word>, total: int, current: int): int {
    if words == [] then total + current
    else match words[0]
      case Small(n) => Fold(words[1..], total, current + n)
      case Tens(k) => Fold(words[1..], total, current + 10 * k)
      case Hundred => Fold(words[1..], total, current * 100)
      case Scale(k) => Fold(words[1..], total + current * Power(k), 0)
      case And => Fold(words[1..], total, current)
      case Minus => Fold(words[1..], total, current)
  }

  predicate AllDigits(words: seq<Word>) {
    forall w | w in words :: w.Small? && w.n < 10
  }

  function ReadDigits(words: seq<Word>): nat
    requires AllDigits(words)
  {
    if words == [] then 0
    else 10 * ReadDigits(words[..|words| - 1]) + words[|words| - 1].n
  }

  function ReadNatural(words: seq<Word>): int {
    if AllDigits(words) then ReadDigits(words) else Fold(words, 0, 0)
  }

  function ReadInteger(words: seq<Word>): int {
    if words != [] && words[0] == Minus then -ReadNatural(words[1..]) else ReadNatural(words)
  }

  // ----- the reader undoes the printer -----

  lemma Step(w: Word, rest: seq<Word>)
    ensures ([w] + rest)[0] == w && ([w] + rest)[1..] == rest
  {
  }

  lemma FoldUnderHundred(value: nat, rest: seq<Word>, total: int, current: int)
    requires value < 100
    ensures Fold(UnderThousand(value) + rest, total, current) == Fold(rest, total, current + value)
  {
    if value < 20 {
      Step(Small(value), rest);
    } else if value % 10 == 0 {
      Step(Tens(value / 10), rest);
    } else {
      var tail := [Small(value % 10)] + rest;
      assert UnderThousand(value) + rest == [Tens(value / 10)] + tail;
      Step(Tens(value / 10), tail);
      Step(Small(value % 10), rest);
    }
  }

  lemma FoldHundreds(hundreds: nat, tail: seq<Word>, total: int)
    ensures Fold([Small(hundreds), Hundred] + tail, total, 0) == Fold(tail, total, hundreds * 100)
  {
    assert [Small(hundreds), Hundred] + tail == [Small(hundreds)] + ([Hundred] + tail);
    Step(Small(hundreds), [Hundred] + tail);
    Step(Hundred, tail);
  }

  lemma FoldAnd(tail: seq<Word>, total: int, current: int)
    ensures Fold([And] + tail, total, current) == Fold(tail, total, current)
  {
    Step(And, tail);
  }

  lemma FoldUnderThousand(value: nat, rest: seq<Word>, total: int)
    requires value < 1000
    ensures Fold(UnderThousand(value) + rest, total, 0) == Fold(rest, total, value)
  {
    hide Fold;
    if value < 100 {
      FoldUnderHundred(value, rest, total, 0);
    } else {
      var hundreds, units := value / 100, value % 100;
      var tail := if units != 0 then [And] + (UnderThousand(units) + rest) else rest;
      assert UnderThousand(value) + rest == [Small(hundreds), Hundred] + tail;
      FoldHundreds(hundreds, tail, total);
      if units != 0 {
        FoldAnd(UnderThousand(units) + rest, total, hundreds * 100);
        FoldUnderHundred(units, rest, total, hundreds * 100);
      }
    }
  }

  lemma FoldScaledChunk(group: nat, k: nat, rest: seq<Word>, total: int)
    requires group < 1000 && k > 0
    ensures Fold(ChunkOf(group, k).1 + rest, total, 0) == Fold(rest, total + group * Power(k), 0)
  {
    assert ChunkOf(group, k).1 + rest == UnderThousand(group) + ([Scale(k)] + rest);
    FoldUnderThousand(group, [Scale(k)] + rest, total);
    Step(Scale(k), rest);
  }

  lemma SpokenSnoc(chunks: seq<Chunk>, chunk: Chunk, rest: seq<Word>)
    ensures Spoken(chunks + [chunk]) + rest == Spoken(chunks) + (chunk.1 + rest)
  {
    assert (chunks + [chunk])[..|chunks|] == chunks;
  }

  lemma NothingSpoken(rest: seq<Word>)
    ensures Spoken([]) + rest == rest
  {
  }

  lemma PowerStep(value: nat, k: nat)
    ensures value * Power(k) == (value / 1000) * Power(k + 1) + (value % 1000) * Power(k)
  {
    var p := Power(k);
    assert value == 1000 * (value / 1000) + value % 1000;
    assert value * p == (1000 * (value / 1000) + value % 1000) * p;
  }

  lemma {:induction false} FoldScaledChunks(value: nat, k: nat, rest: seq<Word>, total: int)
    requires k > 0
    ensures Fold(Spoken(Chunks(value, k)) + rest, total, 0) == Fold(rest, total + value * Power(k), 0)
    decreases value
  {
    hide Fold, Power, ChunkOf, Spoken;
    if value == 0 {
      NothingSpoken(rest);
    } else {
      var high, group := value / 1000, value % 1000;
      PowerStep(value, k);
      if group == 0 {
        assert Chunks(value, k) == Chunks(high, k + 1);
        FoldScaledChunks(high, k + 1, rest, total);
      } else {
        SpokenSnoc(Chunks(high, k + 1), ChunkOf(group, k), rest);
        FoldScaledChunks(high, k + 1, ChunkOf(group, k).1 + rest, total);
        FoldScaledChunk(group, k, rest, total + high * Power(k + 1));
      }
    }
  }

  lemma FoldChunks(value: nat)
    ensures Fold(Spoken(Chunks(value, 0)), 0, 0) == value
  {
    var high, group := value / 1000, value % 1000;
    if value == 0 {
    } else if group == 0 {
      assert Chunks(value, 0) == Chunks(high, 1);
      assert Spoken(Chunks(high, 1)) + [] == Spoken(Chunks(high, 1));
      FoldScaledChunks(high, 1, [], 0);
    } else {
      SpokenSnoc(Chunks(high, 1), ChunkOf(group, 0), []);
      assert ChunkOf(group, 0).1 + [] == UnderThousand(group) + [];
      assert Spoken(Chunks(value, 0)) + [] == Spoken(Chunks(value, 0));
      FoldScaledChunks(high, 1, UnderThousand(group) + [], 0);
      FoldUnderThousand(group, [], high * Power(1));
    }
    assert Power(1) == 1000;
  }

  lemma {:induction false} FoldSkipsAnd(front: seq<Word>, back: seq<Word>, total: int, current: int)
    ensures Fold(front + [And] + back, total, current) == Fold(front + back, total, current)
    decreases |front|
  {
    if front == [] {
      assert front + [And] + back == [And] + back && front + back == back;
      Step(And, back);
    } else {
      var w, tail := front[0], front[1..];
      assert front + [And] + back == [w] + (tail + [And] + back) && front + back == [w] + (tail + back);
      Step(w, tail + [And] + back);
      Step(w, tail + back);
      match w
      case Small(n) => FoldSkipsAnd(tail, back, total, current + n);
      case Tens(k) => FoldSkipsAnd(tail, back, total, current + 10 * k);
      case Hundred => FoldSkipsAnd(tail, back, total, current * 100);
      case Scale(k) => FoldSkipsAnd(tail, back, total + current * Power(k), 0);
      case And => FoldSkipsAnd(tail, back, total, current);
      case Minus => FoldSkipsAnd(tail, back, total, current);
    }
  }

  lemma FoldAssembled(value: nat)
    ensures Fold(Assemble(Chunks(value, 0)), 0, 0) == value
  {
    var chunks := Chunks(value, 0);
    FoldChunks(value);
    if |chunks| > 1 {
      FoldSkipsAnd(Spoken(chunks[..|chunks| - 1]), chunks[|chunks| - 1].1, 0, 0);
    }
  }

  lemma {:induction false} ReadDigitsUndoes(value: nat)
    ensures AllDigits(DigitWords(value)) && ReadDigits(DigitWords(value)) == value
  {
    var words := DigitWords(value);
    if value >= 10 {
      ReadDigitsUndoes(value / 10);
      assert words[..|words| - 1] == DigitWords(value / 10);
      assert words == DigitWords(value / 10) + [Small(value % 10)];
    } else {
      assert words == [Small(value)];
      assert words[..0] == [];
    }
  }

  lemma UnderThousandWords(value: nat)
    requires value < 1000
    ensures Minus !in UnderThousand(value) && UnderThousand(value) != []
    ensures value >= 10 ==> !AllDigits(UnderThousand(value))
    ensures value < 10 ==> UnderThousand(value) == [Small(value)]
  {
    var words := UnderThousand(value);
    if value >= 100 {
      assert words[1] in words && words[1] == Hundred;
      if value % 100 != 0 { UnderThousandWords(value % 100); }
    } else if value >= 10 {
      assert words[0] in words;
    }
  }

  lemma ChunkSpoken(value: nat, k: nat)
    ensures Spoken(Chunks(value, k)) == if value == 0 then [] else
              Spoken(Chunks(value / 1000, k + 1)) + if value % 1000 != 0 then ChunkOf(value % 1000, k).1 else []
  {
    var high, group := Chunks(value / 1000, k + 1), value % 1000;
    if value != 0 && group != 0 {
      assert (high + [ChunkOf(group, k)])[..|high|] == high;
    } else if value != 0 {
      assert Chunks(value, k) == high;
    }
  }

  /** Every spoken chunk but the lowest names its scale, and none says minus. */
  lemma {:induction false} ChunkWords(value: nat, k: nat)
    ensures Minus !in Spoken(Chunks(value, k))
    ensures value > 0 && k > 0 ==> !AllDigits(Spoken(Chunks(value, k)))
    ensures 10 <= value ==> !AllDigits(Spoken(Chunks(value, k)))
    ensures 0 < value < 10 && k == 0 ==> Spoken(Chunks(value, k)) == [Small(value)]
    decreases value
  {
    ChunkSpoken(value, k);
    if value > 0 {
      var high, group := value / 1000, value % 1000;
      ChunkWords(high, k + 1);
      UnderThousandWords(group);
      var words := Spoken(Chunks(value, k));
      if group != 0 && k > 0 {
        assert Scale(k) in words;
      }
    }
  }

  lemma AssembledWords(value: nat)
    ensures Minus !in Assemble(Chunks(value, 0))
    ensures 10 <= value ==> !AllDigits(Assemble(Chunks(value, 0)))
    ensures 0 < value < 10 ==> Assemble(Chunks(value, 0)) == [Small(value)]
  {
    hide UnderThousand, ChunkOf;
    var chunks := Chunks(value, 0);
    ChunkWords(value, 0);
    ChunkWords(0, 1);
    if |chunks| > 1 {
      assert Spoken(chunks) == Spoken(chunks[..|chunks| - 1]) + chunks[|chunks| - 1].1;
      forall w | w in Spoken(chunks) ensures w in Assemble(chunks) {}
    }
  }

  lemma PositiveRoundTrip(value: nat)
    ensures ReadNatural(Cardinal(value)) == value
    ensures Cardinal(value) == [] || Cardinal(value)[0] != Minus
  {
    hide Fold, Chunks, Assemble, DigitWords;
    OneDigit(value);
    var words := Cardinal(value);
    assert words != [] ==> words[0] in words;
    if value >= LIMIT {
      ReadDigitsUndoes(value);
    } else if value > 0 {
      FoldAssembled(value);
      AssembledWords(value);
    }
  }

  lemma OneDigit(value: nat)
    ensures value < 10 ==> AllDigits([Small(value)]) && ReadDigits([Small(value)]) == value
  {
    assert [Small(value)][..0] == [];
  }

  /** Reading undoes printing for every integer, so no two integers are spoken alike. */
  lemma RoundTrip(value: int)
    ensures ReadInteger(Cardinal(value)) == value
  {
    if value >= 0 {
      PositiveRoundTrip(value);
    } else {
      PositiveRoundTrip(-value);
      Step(Minus, Cardinal(-value));
    }
  }

  lemma CardinalsAreDistinct(a: int, b: int)
    requires Cardinal(a) == Cardinal(b)
    ensures a == b
  {
    RoundTrip(a);
    RoundTrip(b);
  }
}

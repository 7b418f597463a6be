/** How number words are spelled, as cardinals and as the last word of an ordinal. */
module NumberText {
  import opened Options
  import opened NumberWords
  import opened EnglishWords

  datatype Spelled = Spelled(cardinal: string, ordinal: string)

  /** The spelling of a word and of its ordinal ending; "zero" has no entry of its own and takes "th". */
  function Spelling(w: Word): Spelled {
    match w
    case Small(n) => if n < 10 then DigitSpelling(n) else TeenSpelling(n)
    case Tens(k) => TensSpelling(k)
    case Hundred => Spelled("hundred", "hundredth")
    case Scale(k) =>
      if k == 1 then Spelled("thousand", "thousandth")
      else if k == 2 then Spelled("million", "millionth")
      else if k == 3 then Spelled("billion", "billionth")
      else Spelled("trillion", "trillionth")
    case And => Spelled("and", "andth")
    case Minus => Spelled("minus", "minusth")
  }

  function DigitSpelling(n: nat): Spelled {
    if n == 0 then Spelled("zero", "zeroth")
    else if n == 1 then Spelled("one", "first")
    else if n == 2 then Spelled("two", "second")
    else if n == 3 then Spelled("three", "third")
    else if n == 4 then Spelled("four", "fourth")
    else if n == 5 then Spelled("five", "fifth")
    else if n == 6 then Spelled("six", "sixth")
    else if n == 7 then Spelled("seven", "seventh")
    else if n == 8 then Spelled("eight", "eighth")
    else Spelled("nine", "ninth")
  }

  function TeenSpelling(n: nat): Spelled {
    if n == 10 then Spelled("ten", "tenth")
    else if n == 11 then Spelled("eleven", "eleventh")
    else if n == 12 then Spelled("twelve", "twelfth")
    else if n == 13 then Spelled("thirteen", "thirteenth")
    else if n == 14 then Spelled("fourteen", "fourteenth")
    else if n == 15 then Spelled("fifteen", "fifteenth")
    else if n == 16 then Spelled("sixteen", "sixteenth")
    else if n == 17 then Spelled("seventeen", "seventeenth")
    else if n == 18 then Spelled("eighteen", "eighteenth")
    else Spelled("nineteen", "nineteenth")
  }

  function TensSpelling(k: nat): Spelled {
    if k == 2 then Spelled("twenty", "twentieth")
    else if k == 3 then Spelled("thirty", "thirtieth")
    else if k == 4 then Spelled("forty", "fortieth")
    else if k == 5 then Spelled("fifty", "fiftieth")
    else if k == 6 then Spelled("sixty", "sixtieth")
    else if k == 7 then Spelled("seventy", "seventieth")
    else if k == 8 then Spelled("eighty", "eightieth")
    else Spelled("ninety", "ninetieth")
  }

  predicate Speakable(w: Word) {
    match w
    case Small(n) => n < 20
    case Tens(k) => 2 <= k < 10
    case Scale(k) => 1 <= k < 5
    case _ => true
  }

  lemma UnitIsRead(w: Word)
    requires w.Small? && w.n < 10
    ensures Unit(Spelling(w).cardinal) == Some(w)
    ensures UnitOrdinal(Spelling(w).ordinal) == Some(w)
  {
  }

  lemma TeenIsNoUnit(w: Word)
    requires w.Small? && 10 <= w.n < 20
    ensures Unit(Spelling(w).cardinal) == None
  {
  }

  lemma TeenthIsNoUnit(w: Word)
    requires w.Small? && 10 <= w.n < 20
    ensures UnitOrdinal(Spelling(w).ordinal) == None
  {
  }

  lemma TeenIsRead(w: Word)
    requires w.Small? && 10 <= w.n < 20
    ensures Teen(Spelling(w).cardinal) == Some(w)
    ensures TeenOrdinal(Spelling(w).ordinal) == Some(w)
  {
  }

  lemma TensAreNoUnits(w: Word)
    requires w.Tens? && 2 <= w.k < 10
    ensures Unit(Spelling(w).cardinal) == None
    ensures UnitOrdinal(Spelling(w).ordinal) == None
  {
  }

  lemma TensAreNoTeens(w: Word)
    requires w.Tens? && 2 <= w.k < 10
    ensures Teen(Spelling(w).cardinal) == None
  {
  }

  lemma TensOrdinalsAreNoTeens(w: Word)
    requires w.Tens? && 2 <= w.k < 10
    ensures TeenOrdinal(Spelling(w).ordinal) == None
  {
  }

  lemma TensAreRead(w: Word)
    requires w.Tens? && 2 <= w.k < 10
    ensures Ten(Spelling(w).cardinal) == Some(w)
    ensures TenOrdinal(Spelling(w).ordinal) == Some(w)
  {
  }

  lemma OthersAreNoUnits(w: Word)
    requires Speakable(w) && !w.Small? && !w.Tens?
    ensures Unit(Spelling(w).cardinal) == None
    ensures UnitOrdinal(Spelling(w).ordinal) == None
  {
  }

  lemma OthersAreNoTeens(w: Word)
    requires Speakable(w) && !w.Small? && !w.Tens?
    ensures Teen(Spelling(w).cardinal) == None
    ensures TeenOrdinal(Spelling(w).ordinal) == None
  {
  }

  lemma OthersAreNoTens(w: Word)
    requires Speakable(w) && !w.Small? && !w.Tens?
    ensures Ten(Spelling(w).cardinal) == None
    ensures TenOrdinal(Spelling(w).ordinal) == None
  {
  }

  lemma OthersAreRead(w: Word)
    requires Speakable(w) && !w.Small? && !w.Tens?
    ensures PowerWord(Spelling(w).cardinal) == Some(w)
    ensures PowerOrdinal(Spelling(w).ordinal) == Some(w)
  {
  }

  /** Every word is spelled so that it is read as that word, as a cardinal and as an ordinal. */
  lemma SpellingIsRead(w: Word)
    requires Speakable(w)
    ensures WordNamed(Spelling(w).cardinal, false) == Some(w) && WordNamed(Spelling(w).ordinal, true) == Some(w)
  {
    hide Spelling, Unit, Teen, Ten, PowerWord, UnitOrdinal, TeenOrdinal, TenOrdinal, PowerOrdinal;
    if w.Small? && w.n < 10 {
      UnitIsRead(w);
    } else if w.Small? {
      TeenIsNoUnit(w);
      TeenthIsNoUnit(w);
      TeenIsRead(w);
    } else if w.Tens? {
      TensAreNoUnits(w);
      TensAreNoTeens(w);
      TensOrdinalsAreNoTeens(w);
      TensAreRead(w);
    } else {
      OthersAreNoUnits(w);
      OthersAreNoTeens(w);
      OthersAreNoTens(w);
      OthersAreRead(w);
    }
  }

  /** No two words share a cardinal spelling, and no two share an ordinal one. */
  lemma SpellingsDiffer(v: Word, w: Word)
    requires Speakable(v) && Speakable(w) && v != w
    ensures Spelling(v).cardinal != Spelling(w).cardinal && Spelling(v).ordinal != Spelling(w).ordinal
  {
    hide Spelling, WordNamed;
    SpellingIsRead(v);
    SpellingIsRead(w);
  }

  // ----- every printed word can be spelled -----

  predicate AllSpeakable(words: seq<Word>) {
    forall w | w in words :: Speakable(w)
  }

  lemma UnderThousandSpeakable(value: nat)
    requires value < 1000
    ensures AllSpeakable(UnderThousand(value))
  {
  }

  lemma FewerGroups(value: nat, k: nat)
    requires k <= 5 && 0 < value < Power(5 - k)
    ensures k < 5 && value / 1000 < Power(5 - (k + 1))
  {
    if k < 5 { assert Power(5 - k) == 1000 * Power(5 - (k + 1)); }
  }

  lemma {:induction false} ChunksSpeakable(value: nat, k: nat)
    requires k <= 5 && value < Power(5 - k)
    ensures AllSpeakable(Spoken(Chunks(value, k)))
    decreases value
  {
    ChunkSpoken(value, k);
    hide UnderThousand, Chunks, Spoken;
    if value > 0 {
      FewerGroups(value, k);
      ChunksSpeakable(value / 1000, k + 1);
      UnderThousandSpeakable(value % 1000);
    }
  }

  lemma {:induction false} DigitsSpeakable(value: nat)
    ensures AllSpeakable(DigitWords(value))
  {
    ReadDigitsUndoes(value);
  }

  lemma CardinalSpeakable(value: int)
    ensures Cardinal(value) != [] && AllSpeakable(Cardinal(value))
    decreases value < 0
  {
    if value < 0 {
      CardinalSpeakable(-value);
    } else if value >= LIMIT {
      DigitsSpeakable(value);
    } else if value > 0 {
      LimitIsFiveGroups();
      ChunksSpeakable(value, 0);
      AssembledFromSpoken(value);
    }
  }

  lemma AssembledFromSpoken(value: nat)
    requires value > 0
    ensures Assemble(Chunks(value, 0)) != []
    ensures AllSpeakable(Spoken(Chunks(value, 0))) ==> AllSpeakable(Assemble(Chunks(value, 0)))
  {
    hide UnderThousand;
    AssembledWords(value);
    var chunks := Chunks(value, 0);
    if |chunks| > 1 && chunks[|chunks| - 1].0 < 100 {
      forall w | w in Assemble(chunks) ensures w == And || w in Spoken(chunks) {}
    }
  }

  // ----- text -----

  /** The words of a number as printed. */
  function CardinalText(value: int): seq<string> {
    var words := Cardinal(value);
    seq(|words|, i requires 0 <= i < |words| => Spelling(words[i]).cardinal)
  }

  /** The words of an ordinal: the cardinal's, with the ordinal ending on the last one. */
  function OrdinalWords(value: int): seq<string> {
    var words := Cardinal(value);
    var last := |words| - 1;
    if words == [] then [] else CardinalText(value)[..last] + [Spelling(words[last]).ordinal]
  }

  /** Reads a text back: every word as a cardinal, except an ordinal's last. */
  function ReadText(text: seq<string>, ordinal: bool): int {
    ReadInteger(seq(|text|, i requires 0 <= i < |text| => Named(text[i], ordinal && i == |text| - 1)))
  }

  lemma ReadTextUndoes(value: int, text: seq<string>, ordinal: bool)
    requires |text| == |Cardinal(value)|
    requires forall i :: 0 <= i < |text| ==>
               var s := Spelling(Cardinal(value)[i]);
               text[i] == if ordinal && i == |text| - 1 then s.ordinal else s.cardinal
    ensures ReadText(text, ordinal) == value
  {
    hide Spelling, Cardinal, WordNamed;
    var words := Cardinal(value);
    CardinalSpeakable(value);
    forall i | 0 <= i < |text| ensures Named(text[i], ordinal && i == |text| - 1) == words[i] {
      assert words[i] in words;
      SpellingIsRead(words[i]);
    }
    assert seq(|text|, i requires 0 <= i < |text| => Named(text[i], ordinal && i == |text| - 1)) == words;
    RoundTrip(value);
  }

  /** A reader undoes the printed cardinal of every integer. */
  lemma CardinalTextRoundTrip(value: int)
    ensures ReadText(CardinalText(value), false) == value
  {
    ReadTextUndoes(value, CardinalText(value), false);
  }

  /** Reversing the ending of its last word, the same reader undoes the words of every ordinal. */
  lemma OrdinalWordsRoundTrip(value: int)
    ensures OrdinalWords(value) != [] && ReadText(OrdinalWords(value), true) == value
  {
    CardinalSpeakable(value);
    hide Spelling, Cardinal;
    var text := OrdinalWords(value);
    assert forall i :: 0 <= i < |text| - 1 ==> text[i] == CardinalText(value)[i];
    ReadTextUndoes(value, text, true);
  }
}

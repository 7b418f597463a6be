/** Number texts as single strings: words joined by spaces, and the ordinal made from the last one. */
module PrintedNumbers {
  import opened NumberWords
  import opened NumberText

  // ----- joining and splitting -----

  /** The words with one space between them. */
  function Spaced(words: seq<string>): string {
    if words == [] then ""
    else if |words| == 1 then words[0]
    else words[0] + " " + Spaced(words[1..])
  }

  /** The position of the first space, or the length. */
  function FirstSpace(s: string): (n: nat)
    ensures n <= |s| && (n < |s| ==> s[n] == ' ')
    ensures forall i :: 0 <= i < n ==> s[i] != ' '
  {
    if s == "" || s[0] == ' ' then 0 else 1 + FirstSpace(s[1..])
  }

  function Split(s: string): seq<string>
    decreases |s|
  {
    var n := FirstSpace(s);
    if n == |s| then [s] else [s[..n]] + Split(s[n + 1..])
  }

  ghost predicate Unspaced(words: seq<string>) {
    forall w :: w in words ==> ' ' !in w
  }

  lemma {:induction false} SplitUndoesSpaced(words: seq<string>)
    requires words != [] && Unspaced(words)
    ensures Split(Spaced(words)) == words
  {
    var s, first := Spaced(words), words[0];
    assert first in words;
    if |words| == 1 {
      assert FirstSpace(s) == |s|;
    } else {
      assert s[..|first|] == first && s[|first|] == ' ' && s[|first| + 1..] == Spaced(words[1..]);
      assert FirstSpace(s) == |first| by {
        assert forall i :: 0 <= i < |first| ==> s[i] == first[i] && first[i] in first;
      }
      SplitUndoesSpaced(words[1..]);
    }
  }

  /** Python's `rpartition(" ")`: what precedes the last space and what follows it. */
  function LastSpace(s: string): (n: int)
    ensures -1 <= n < |s| && (n >= 0 ==> s[n] == ' ')
    ensures forall i :: n < i < |s| ==> s[i] != ' '
  {
    if s == "" then -1
    else if s[|s| - 1] == ' ' then |s| - 1
    else LastSpace(s[..|s| - 1])
  }

  lemma {:induction false} SpacedSnoc(words: seq<string>, last: string)
    ensures Spaced(words + [last]) == if words == [] then last else Spaced(words) + " " + last
  {
    if |words| > 1 {
      SpacedSnoc(words[1..], last);
      assert (words + [last])[1..] == words[1..] + [last];
    } else if |words| == 1 {
      assert (words + [last])[1..] == [last];
    }
  }

  lemma LastSpaceOfSpaced(words: seq<string>, last: string)
    requires ' ' !in last
    ensures var s := Spaced(words + [last]);
            if words == [] then LastSpace(s) == -1
            else LastSpace(s) == |Spaced(words)| && s[..LastSpace(s)] == Spaced(words)
    ensures Spaced(words + [last])[LastSpace(Spaced(words + [last])) + 1..] == last
  {
    SpacedSnoc(words, last);
    hide Spaced;
    var s := Spaced(words + [last]);
    if words != [] {
      var n := |Spaced(words)|;
      assert s[n] == ' ' && s[n + 1..] == last;
      assert forall i :: n < i < |s| ==> s[i] == last[i - n - 1] && s[i] in last;
    }
  }

  // ----- spellings hold no spaces -----

  lemma DigitsHaveNoSpace(n: nat)
    ensures DigitSpelling(n).cardinal != ""
    ensures ' ' !in DigitSpelling(n).cardinal && ' ' !in DigitSpelling(n).ordinal
  {
  }

  lemma LowTeensHaveNoSpace(n: nat)
    requires n < 15
    ensures TeenSpelling(n).cardinal != "" && ' ' !in TeenSpelling(n).cardinal
  {
  }

  lemma HighTeensHaveNoSpace(n: nat)
    requires n >= 15
    ensures TeenSpelling(n).cardinal != "" && ' ' !in TeenSpelling(n).cardinal
  {
  }

  /** Every ordinal in the teens but "twelfth" is its cardinal with "th". */
  lemma TeenOrdinalHasNoSpace(n: nat)
    requires ' ' !in TeenSpelling(n).cardinal
    ensures ' ' !in TeenSpelling(n).ordinal
  {
    if n == 12 {
      assert TeenSpelling(n).ordinal == "twelfth";
    } else {
      TeenOrdinalAppends(n);
      hide TeenSpelling;
      assert ' ' !in "th";
    }
  }

  lemma TeenOrdinalAppends(n: nat)
    requires n != 12
    ensures TeenSpelling(n).ordinal == TeenSpelling(n).cardinal + "th"
  {
  }

  lemma TensHaveNoSpace(k: nat)
    ensures TensSpelling(k).cardinal != ""
    ensures ' ' !in TensSpelling(k).cardinal && ' ' !in TensSpelling(k).ordinal
  {
  }

  lemma SpellingHasNoSpace(w: Word)
    ensures Spelling(w).cardinal != ""
    ensures ' ' !in Spelling(w).cardinal && ' ' !in Spelling(w).ordinal
  {
    hide DigitSpelling, TeenSpelling, TensSpelling;
    if w.Small? {
      DigitsHaveNoSpace(w.n);
      if w.n < 15 { LowTeensHaveNoSpace(w.n); } else { HighTeensHaveNoSpace(w.n); }
      TeenOrdinalHasNoSpace(w.n);
    }
    if w.Tens? { TensHaveNoSpace(w.k); }
  }

  // ----- ordinal endings -----

  /** The table of ordinal endings; a word that is not in it takes "th". */
  function Ending(tail: string): string {
    var small := SmallEnding(tail);
    if small != "" then small
    else
      var tens := TensEnding(tail);
      if tens != "" then tens else tail + "th"
  }

  function SmallEnding(tail: string): string {
    if tail == "one" then "first"
    else if tail == "two" then "second"
    else if tail == "three" then "third"
    else if tail == "four" then "fourth"
    else if tail == "five" then "fifth"
    else if tail == "six" then "sixth"
    else if tail == "seven" then "seventh"
    else if tail == "eight" then "eighth"
    else if tail == "nine" then "ninth"
    else if tail == "ten" then "tenth"
    else if tail == "eleven" then "eleventh"
    else if tail == "twelve" then "twelfth"
    else if tail == "thirteen" then "thirteenth"
    else if tail == "fourteen" then "fourteenth"
    else if tail == "fifteen" then "fifteenth"
    else if tail == "sixteen" then "sixteenth"
    else if tail == "seventeen" then "seventeenth"
    else if tail == "eighteen" then "eighteenth"
    else if tail == "nineteen" then "nineteenth"
    else ""
  }

  function TensEnding(tail: string): string {
    if tail == "twenty" then "twentieth"
    else if tail == "thirty" then "thirtieth"
    else if tail == "forty" then "fortieth"
    else if tail == "fifty" then "fiftieth"
    else if tail == "sixty" then "sixtieth"
    else if tail == "seventy" then "seventieth"
    else if tail == "eighty" then "eightieth"
    else if tail == "ninety" then "ninetieth"
    else if tail == "hundred" then "hundredth"
    else if tail == "thousand" then "thousandth"
    else if tail == "million" then "millionth"
    else if tail == "billion" then "billionth"
    else if tail == "trillion" then "trillionth"
    else ""
  }

  lemma ZeroEnding()
    ensures Ending(DigitSpelling(0).cardinal) == DigitSpelling(0).ordinal
  {
    assert "zero" + "th" == "zeroth";
  }

  lemma DigitEnding(n: nat)
    requires 0 < n < 10
    ensures SmallEnding(DigitSpelling(n).cardinal) == DigitSpelling(n).ordinal != ""
  {
  }

  lemma TeenEnding(n: nat)
    requires 10 <= n < 20
    ensures SmallEnding(TeenSpelling(n).cardinal) == TeenSpelling(n).ordinal != ""
  {
  }

  lemma LargeIsNotSmall(w: Word)
    requires Speakable(w) && !w.Small?
    ensures SmallEnding(Spelling(w).cardinal) == ""
  {
  }

  lemma LargeEnding(w: Word)
    requires Speakable(w) && !w.Small? && !w.And? && !w.Minus?
    ensures TensEnding(Spelling(w).cardinal) == Spelling(w).ordinal != ""
  {
  }

  lemma JoiningWordEnding(w: Word)
    requires w.And? || w.Minus?
    ensures TensEnding(Spelling(w).cardinal) == "" && Spelling(w).cardinal + "th" == Spelling(w).ordinal
  {
    assert "and" + "th" == "andth" && "minus" + "th" == "minusth";
  }

  /** The ending of a spelled word is the word's ordinal. */
  lemma EndingIsOrdinal(w: Word)
    requires Speakable(w)
    ensures Ending(Spelling(w).cardinal) == Spelling(w).ordinal
  {
    hide SmallEnding, TensEnding, DigitSpelling, TeenSpelling, TensSpelling;
    if w == Small(0) {
      ZeroEnding();
    } else if w.Small? && w.n < 10 {
      DigitEnding(w.n);
    } else if w.Small? {
      TeenEnding(w.n);
    } else {
      hide Spelling;
      LargeIsNotSmall(w);
      if w.And? || w.Minus? { JoiningWordEnding(w); } else { LargeEnding(w); }
    }
  }

  // ----- printed numbers -----

  function PrintedCardinal(value: int): string {
    Spaced(CardinalText(value))
  }

  function ReadPrinted(text: string, ordinal: bool): int {
    ReadText(Split(text), ordinal)
  }

  lemma CardinalTextIsUnspaced(value: int)
    ensures CardinalText(value) != [] && Unspaced(CardinalText(value))
  {
    hide Cardinal, Spelling;
    CardinalSpeakable(value);
    forall i | 0 <= i < |Cardinal(value)| ensures ' ' !in CardinalText(value)[i] {
      SpellingHasNoSpace(Cardinal(value)[i]);
    }
  }

  /** Splitting at the spaces and reading the words undoes the printed cardinal of every integer. */
  lemma PrintedCardinalRoundTrip(value: int)
    ensures ReadPrinted(PrintedCardinal(value), false) == value
  {
    hide CardinalText, ReadText, Split, Spaced;
    CardinalTextIsUnspaced(value);
    SplitUndoesSpaced(CardinalText(value));
    CardinalTextRoundTrip(value);
  }

  /** The string of a cardinal, which reads back as the integer. */
  method IntegerText(value: int) returns (text: string)
    ensures text == PrintedCardinal(value) && ReadPrinted(text, false) == value
  {
    var words := IntegerToWords(value);
    text := Spaced(seq(|words|, i requires 0 <= i < |words| => Spelling(words[i]).cardinal));
    PrintedCardinalRoundTrip(value);
  }

  /** The string of an ordinal: its cardinal with the ending changed after the last space. */
  method OrdinalToWords(value: int) returns (text: string)
    ensures ReadPrinted(text, true) == value
    ensures text == Spaced(OrdinalWords(value))
  {
    var words := IntegerText(value);
    var n := LastSpace(words);
    var ordinal := Ending(words[n + 1..]);
    text := if n > 0 then words[..n] + " " + ordinal else ordinal;
    OrdinalAtLastSpace(value);
    PrintedOrdinalRoundTrip(value);
  }

  lemma SpacedIsNotEmpty(words: seq<string>)
    requires words != [] && words[0] != ""
    ensures Spaced(words) != ""
  {
  }

  lemma OrdinalAtLastSpace(value: int)
    ensures var words := PrintedCardinal(value);
            var n := LastSpace(words);
            Spaced(OrdinalWords(value)) ==
            if n > 0 then words[..n] + " " + Ending(words[n + 1..]) else Ending(words[n + 1..])
  {
    hide Cardinal, Spelling, Spaced, LastSpace, Ending;
    CardinalSpeakable(value);
    CardinalTextIsUnspaced(value);
    var text := CardinalText(value);
    var front, last := text[..|text| - 1], text[|text| - 1];
    assert text == front + [last] && last in text;
    assert Cardinal(value)[|text| - 1] in Cardinal(value);
    EndingIsOrdinal(Cardinal(value)[|text| - 1]);
    LastSpaceOfSpaced(front, last);
    SpacedSnoc(front, Ending(last));
    assert OrdinalWords(value) == front + [Ending(last)];
    if front != [] {
      assert front[0] == text[0] == Spelling(Cardinal(value)[0]).cardinal;
      SpellingHasNoSpace(Cardinal(value)[0]);
      SpacedIsNotEmpty(front);
    }
  }

  lemma PrintedOrdinalRoundTrip(value: int)
    ensures ReadPrinted(Spaced(OrdinalWords(value)), true) == value
  {
    hide Cardinal, Spelling, ReadText, Split, Spaced;
    CardinalSpeakable(value);
    OrdinalWordsRoundTrip(value);
    CardinalTextIsUnspaced(value);
    SpellingHasNoSpace(Cardinal(value)[|Cardinal(value)| - 1]);
    SplitUndoesSpaced(OrdinalWords(value));
  }

  /** Two integers printed as the same string, both as cardinals or both as ordinals, are equal. */
  lemma PrintedNumbersAreDistinct(a: int, b: int)
    ensures PrintedCardinal(a) == PrintedCardinal(b) ==> a == b
    ensures Spaced(OrdinalWords(a)) == Spaced(OrdinalWords(b)) ==> a == b
  {
    hide PrintedCardinal, Spaced, ReadPrinted, OrdinalWords;
    PrintedCardinalRoundTrip(a);
    PrintedCardinalRoundTrip(b);
    PrintedOrdinalRoundTrip(a);
    PrintedOrdinalRoundTrip(b);
  }
}

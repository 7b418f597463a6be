/** A reader of English number words, spelled out one by one. */
module EnglishWords {
  import opened Options
  import opened NumberWords

  /** The words for 0 to 9. */
  function Unit(text: string): Option<Word> {
    if text == "zero" then Some(Small(0))
    else if text == "one" then Some(Small(1))
    else if text == "two" then Some(Small(2))
    else if text == "three" then Some(Small(3))
    else if text == "four" then Some(Small(4))
    else if text == "five" then Some(Small(5))
    else if text == "six" then Some(Small(6))
    else if text == "seven" then Some(Small(7))
    else if text == "eight" then Some(Small(8))
    else if text == "nine" then Some(Small(9))
    else None
  }

  /** The words for 10 to 19. */
  function Teen(text: string): Option<Word> {
    if text == "ten" then Some(Small(10))
    else if text == "eleven" then Some(Small(11))
    else if text == "twelve" then Some(Small(12))
    else if text == "thirteen" then Some(Small(13))
    else if text == "fourteen" then Some(Small(14))
    else if text == "fifteen" then Some(Small(15))
    else if text == "sixteen" then Some(Small(16))
    else if text == "seventeen" then Some(Small(17))
    else if text == "eighteen" then Some(Small(18))
    else if text == "nineteen" then Some(Small(19))
    else None
  }

  /** The words for 20, 30 and so on to 90. */
  function Ten(text: string): Option<Word> {
    if text == "twenty" then Some(Tens(2))
    else if text == "thirty" then Some(Tens(3))
    else if text == "forty" then Some(Tens(4))
    else if text == "fifty" then Some(Tens(5))
    else if text == "sixty" then Some(Tens(6))
    else if text == "seventy" then Some(Tens(7))
    else if text == "eighty" then Some(Tens(8))
    else if text == "ninety" then Some(Tens(9))
    else None
  }

  /** The words for powers of ten, and the two that join numbers. */
  function PowerWord(text: string): Option<Word> {
    if text == "hundred" then Some(Hundred)
    else if text == "thousand" then Some(Scale(1))
    else if text == "million" then Some(Scale(2))
    else if text == "billion" then Some(Scale(3))
    else if text == "trillion" then Some(Scale(4))
    else if text == "and" then Some(And)
    else if text == "minus" then Some(Minus)
    else None
  }

  /** The ordinals of 0 to 9. */
  function UnitOrdinal(text: string): Option<Word> {
    if text == "zeroth" then Some(Small(0))
    else if text == "first" then Some(Small(1))
    else if text == "second" then Some(Small(2))
    else if text == "third" then Some(Small(3))
    else if text == "fourth" then Some(Small(4))
    else if text == "fifth" then Some(Small(5))
    else if text == "sixth" then Some(Small(6))
    else if text == "seventh" then Some(Small(7))
    else if text == "eighth" then Some(Small(8))
    else if text == "ninth" then Some(Small(9))
    else None
  }

  /** The ordinals of 10 to 19. */
  function TeenOrdinal(text: string): Option<Word> {
    if text == "tenth" then Some(Small(10))
    else if text == "eleventh" then Some(Small(11))
    else if text == "twelfth" then Some(Small(12))
    else if text == "thirteenth" then Some(Small(13))
    else if text == "fourteenth" then Some(Small(14))
    else if text == "fifteenth" then Some(Small(15))
    else if text == "sixteenth" then Some(Small(16))
    else if text == "seventeenth" then Some(Small(17))
    else if text == "eighteenth" then Some(Small(18))
    else if text == "nineteenth" then Some(Small(19))
    else None
  }

  /** The ordinals of 20, 30 and so on to 90. */
  function TenOrdinal(text: string): Option<Word> {
    if text == "twentieth" then Some(Tens(2))
    else if text == "thirtieth" then Some(Tens(3))
    else if text == "fortieth" then Some(Tens(4))
    else if text == "fiftieth" then Some(Tens(5))
    else if text == "sixtieth" then Some(Tens(6))
    else if text == "seventieth" then Some(Tens(7))
    else if text == "eightieth" then Some(Tens(8))
    else if text == "ninetieth" then Some(Tens(9))
    else None
  }

  /** The ordinals of powers of ten, and what the joining words would become. */
  function PowerOrdinal(text: string): Option<Word> {
    if text == "hundredth" then Some(Hundred)
    else if text == "thousandth" then Some(Scale(1))
    else if text == "millionth" then Some(Scale(2))
    else if text == "billionth" then Some(Scale(3))
    else if text == "trillionth" then Some(Scale(4))
    else if text == "andth" then Some(And)
    else if text == "minusth" then Some(Minus)
    else None
  }

  function FirstOf(a: Option<Word>, b: Option<Word>, c: Option<Word>, d: Option<Word>): Option<Word> {
    if a.Some? then a else if b.Some? then b else if c.Some? then c else d
  }

  /** The number word that a text spells, as a cardinal or as an ordinal. */
  function WordNamed(text: string, ordinal: bool): Option<Word> {
    if ordinal then FirstOf(UnitOrdinal(text), TeenOrdinal(text), TenOrdinal(text), PowerOrdinal(text))
    else FirstOf(Unit(text), Teen(text), Ten(text), PowerWord(text))
  }

  function Named(text: string, ordinal: bool): Word {
    var w := WordNamed(text, ordinal);
    if w.Some? then w.value else And
  }
}

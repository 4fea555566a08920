/** The Hebrew side of the Tanakh scraper (`torah_web_scraper/getHebTanakh.py`):
    verse numbers written in Hebrew letters, the choice of chapters and verse
    ranges to scrape, and the verse paragraphs and file name of the document
    it saves. */
module HebrewNumerals {
  import opened Wrappers
  import opened Strings
  import opened Docx

  // ---------------------------------------------------------------------
  // number_to_hebrew
  // ---------------------------------------------------------------------

  /** The letters for units 0..9, tens 0..90 and hundreds 0..400; index 0 is
      the empty string. */
  const UNITS: seq<string> := ["", "א", "ב", "ג", "ד", "ה", "ו", "ז", "ח", "ט"]
  const TENS: seq<string> := ["", "י", "כ", "ל", "מ", "נ", "ס", "ע", "פ", "צ"]
  const HUNDREDS: seq<string> := ["", "ק", "ר", "ש", "ת"]

  /** The numeric value of a Hebrew letter (gematria), 0 for anything else. */
  function LetterValue(c: char): nat {
    match c
    case 'א' => 1   case 'ב' => 2   case 'ג' => 3
    case 'ד' => 4   case 'ה' => 5   case 'ו' => 6
    case 'ז' => 7   case 'ח' => 8   case 'ט' => 9
    case 'י' => 10  case 'כ' => 20  case 'ל' => 30
    case 'מ' => 40  case 'נ' => 50  case 'ס' => 60
    case 'ע' => 70  case 'פ' => 80  case 'צ' => 90
    case 'ק' => 100 case 'ר' => 200 case 'ש' => 300
    case 'ת' => 400
    case _ => 0
  }

  /** The sum of the letter values of a string. */
  function Gematria(s: string): nat {
    if s == [] then 0 else LetterValue(s[0]) + Gematria(s[1..])
  }

  lemma GematriaAppend(a: string, b: string)
    ensures Gematria(a + b) == Gematria(a) + Gematria(b)
  {
    if a != [] {
      assert (a + b)[1..] == a[1..] + b;
      GematriaAppend(a[1..], b);
    } else {
      assert a + b == b;
    }
  }

  /** The table entries: a digit d gives one letter worth d, d * 10 or
      d * 100, and the digit 0 gives nothing. */
  lemma TableValues(d: nat)
    requires d < 10
    ensures |UNITS[d]| == (if d == 0 then 0 else 1) && Gematria(UNITS[d]) == d
    ensures |TENS[d]| == (if d == 0 then 0 else 1) && Gematria(TENS[d]) == 10 * d
    ensures d < 5 ==> |HUNDREDS[d]| == (if d == 0 then 0 else 1) && Gematria(HUNDREDS[d]) == 100 * d
  {
  }

  /** The number of non-zero digits among the hundreds, tens and units. */
  function NonZeroDigits(n: int): nat {
    (if (n / 100) % 10 != 0 then 1 else 0) + (if (n / 10) % 10 != 0 then 1 else 0) + (if n % 10 != 0 then 1 else 0)
  }

  /** `number_to_hebrew`: hundreds, tens and units letters of the last three
      decimal digits (Python's `//` and `%` floor, which for the positive
      divisors here is what `/` and `%` do); a hundreds digit of 5 or more
      indexes past the four hundreds letters and raises `IndexError`. */
  function NumberToHebrew(n: int): (r: Result<string>)
    ensures r.Ok? <==> (n / 100) % 10 < 5
    ensures r.Err? ==> r.error.IndexError?
    ensures r.Ok? ==> |r.value| == NonZeroDigits(n)
  {
    var u := n % 10;
    var t := (n / 10) % 10;
    var h := (n / 100) % 10;
    if h >= |HUNDREDS| then Err(IndexError("list index out of range"))
    else
      TableValues(u);
      TableValues(t);
      TableValues(h);
      Ok(HUNDREDS[h] + TENS[t] + UNITS[u])
  }

  /** The last three decimal digits of n, as the floor divisions pick them. */
  lemma ThreeDigits(n: int)
    ensures n % 1000 == 100 * ((n / 100) % 10) + 10 * ((n / 10) % 10) + n % 10
  {
    LastDigit(n, 100);
    LastDigit(n, 10);
  }

  /** Taking off the last digit of the quotient by d: n modulo 10d is the
      last digit of n / d, times d, plus n modulo d. */
  lemma LastDigit(n: int, d: int)
    requires d == 10 || d == 100
    ensures n / (10 * d) == (n / d) / 10
    ensures n % (10 * d) == d * ((n / d) % 10) + n % d
  {
    var q, r := n / d, n % d;
    var q2, r2 := q / 10, q % 10;
    assert n == d * q + r;
    assert q == 10 * q2 + r2;
    assert n == (10 * d) * q2 + (d * r2 + r);
    assert 0 <= d * r2 + r < 10 * d;
  }

  /** Reading the letters back gives the number modulo 1000: the conversion
      loses the thousands and nothing else. */
  lemma NumberToHebrewValue(n: int)
    requires NumberToHebrew(n).Ok?
    ensures Gematria(NumberToHebrew(n).value) == n % 1000
  {
    var u := n % 10;
    var t := (n / 10) % 10;
    var h := (n / 100) % 10;
    TableValues(u);
    TableValues(t);
    TableValues(h);
    assert NumberToHebrew(n).value == HUNDREDS[h] + TENS[t] + UNITS[u];
    GematriaAppend(HUNDREDS[h] + TENS[t], UNITS[u]);
    GematriaAppend(HUNDREDS[h], TENS[t]);
    ThreeDigits(n);
  }

  /** Verse numbers up to 499 are converted and read back exactly. */
  lemma NumberToHebrewRoundTrip(n: nat)
    requires n < 500
    ensures NumberToHebrew(n).Ok? && Gematria(NumberToHebrew(n).value) == n
  {
    NumberToHebrewValue(n);
  }

  /** Zero has no letters; 15 and 16 are written י + ה and י + ו, with no
      special spelling. */
  lemma NumberToHebrewExamples()
    ensures NumberToHebrew(0) == Ok("")
    ensures NumberToHebrew(15) == Ok("יה")
    ensures NumberToHebrew(16) == Ok("יו")
  {
    assert 15 % 10 == 5 && (15 / 10) % 10 == 1 && (15 / 100) % 10 == 0;
    assert 16 % 10 == 6 && (16 / 10) % 10 == 1 && (16 / 100) % 10 == 0;
    assert NumberToHebrew(15) == Ok(HUNDREDS[0] + TENS[1] + UNITS[5]);
    assert NumberToHebrew(16) == Ok(HUNDREDS[0] + TENS[1] + UNITS[6]);
    assert HUNDREDS[0] + TENS[1] + UNITS[5] == "יה";
    assert HUNDREDS[0] + TENS[1] + UNITS[6] == "יו";
  }
}

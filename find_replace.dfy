/**
 * The match counter of the pattern editor's find/replace dialog: the
 * "<position> of <count>" text and how a replacement moves the position and
 * the count.  The localised "no results" and "of" strings are parameters.
 */
module FindReplace {

  import opened MachineInt

  // ------------------------------------------------------ decimal numbers

  predicate IsDigit(c: char) {
    '0' <= c <= '9'
  }

  predicate AllDigits(s: string) {
    forall i :: 0 <= i < |s| ==> IsDigit(s[i])
  }

  function DigitChar(d: nat): (c: char)
    requires d < 10
    ensures IsDigit(c) && c as int - '0' as int == d
  {
    ('0' as int + d) as char
  }

  /** `{}` formatting of an unsigned number: decimal, no leading zeros. */
  function Decimal(n: nat): (s: string)
    ensures |s| >= 1 && AllDigits(s)
    ensures |s| > 1 ==> s[0] != '0'
    decreases n
  {
    if n < 10 then [DigitChar(n)] else Decimal(n / 10) + [DigitChar(n % 10)]
  }

  /** Reading a string of decimal digits back as a number. */
  function ParseDecimal(s: string): (n: nat)
    requires AllDigits(s)
    decreases |s|
  {
    if s == [] then 0 else ParseDecimal(s[..|s| - 1]) * 10 + (s[|s| - 1] as int - '0' as int)
  }

  /** The formatted number reads back as itself. */
  lemma {:induction false} DecimalRoundTrip(n: nat)
    ensures ParseDecimal(Decimal(n)) == n
    decreases n
  {
    if n >= 10 {
      var s := Decimal(n);
      assert s[..|s| - 1] == Decimal(n / 10);
      DecimalRoundTrip(n / 10);
    }
  }

  // ------------------------------------------------------------- counter

  /** Largest position and count the counter spells out. */
  const SHOWN_LIMIT: nat := 1999

  /** The counter text, rebuilt whenever the dialog asks for an update. */
  function CounterText(position: u64, count: u64, noResults: string, of: string): (text: string)
  {
    if count == 0 || position == U64_MAX then noResults
    else
      (if position > SHOWN_LIMIT then "?" else Decimal(position) + " ")
      + of
      + (if count > SHOWN_LIMIT then "1999+" else " " + Decimal(count))
  }

  /**
   * The counter shows the "no results" text exactly when there is no match
   * or no current match, provided that text cannot be mistaken for a count:
   * every other text ends with a digit or '+'.
   */
  lemma CounterNoResults(position: u64, count: u64, noResults: string, of: string)
    requires noResults == [] || !(IsDigit(noResults[|noResults| - 1]) || noResults[|noResults| - 1] == '+')
    ensures CounterText(position, count, noResults, of) == noResults <==> count == 0 || position == U64_MAX
  {
    var text := CounterText(position, count, noResults, of);
    if !(count == 0 || position == U64_MAX) {
      if count > SHOWN_LIMIT {
        assert text[|text| - 1] == '+';
      } else {
        var d := Decimal(count);
        assert text[|text| - 1] == d[|d| - 1];
      }
    }
  }

  /** A shown position is the first number of the text and reads back as itself. */
  lemma CounterShowsPosition(position: u64, count: u64, noResults: string, of: string)
    requires count != 0 && position != U64_MAX
    ensures var text := CounterText(position, count, noResults, of);
      && (position > SHOWN_LIMIT ==> text[0] == '?')
      && (position <= SHOWN_LIMIT ==>
            var digits := |Decimal(position)|;
            && text[..digits] == Decimal(position)
            && text[digits] == ' '
            && ParseDecimal(text[..digits]) == position)
  {
    var text := CounterText(position, count, noResults, of);
    if position <= SHOWN_LIMIT {
      var d := Decimal(position);
      assert text == d + " " + of + (if count > SHOWN_LIMIT then "1999+" else " " + Decimal(count));
      assert text[..|d|] == d;
      DecimalRoundTrip(position);
    }
  }

  /** A shown count is the last number of the text; larger counts read "1999+". */
  lemma CounterShowsCount(position: u64, count: u64, noResults: string, of: string)
    requires count != 0 && position != U64_MAX
    ensures var text := CounterText(position, count, noResults, of);
      && (count > SHOWN_LIMIT ==> |text| >= 5 && text[|text| - 5..] == "1999+")
      && (count <= SHOWN_LIMIT ==>
            var digits := |Decimal(count)|;
            && |text| > digits
            && text[|text| - digits..] == Decimal(count)
            && text[|text| - digits - 1] == ' '
            && ParseDecimal(text[|text| - digits..]) == count)
  {
    var text := CounterText(position, count, noResults, of);
    var head := (if position > SHOWN_LIMIT then "?" else Decimal(position) + " ") + of;
    if count <= SHOWN_LIMIT {
      var d := Decimal(count);
      assert text == head + " " + d;
      assert text[|text| - |d|..] == d;
      DecimalRoundTrip(count);
    } else {
      assert text == head + "1999+";
    }
  }

  // ----------------------------------------------------- replace counting

  /** The dialog's match bookkeeping and focus requests. */
  datatype Counter = Counter(
    position: u64,
    count: u64,
    requestFocusFind: bool,
    requestFocusReplace: bool,
    updateCount: bool)

  /** After the replace widget fires and the replacement succeeded or not. */
  function Replaced(c: Counter, textReplaced: bool): (r: Counter)
    ensures !textReplaced ==> r == c
    ensures textReplaced ==> r.updateCount
  {
    if !textReplaced then c
    else if c.count > 0 then
      var position := if c.position == c.count then c.position - 1 else c.position;
      var count := c.count - 1;
      c.(position := position, count := count, updateCount := true,
         requestFocusFind := c.requestFocusFind || count == 0,
         requestFocusReplace := c.requestFocusReplace || count != 0)
    else
      c.(requestFocusFind := true, updateCount := true)
  }

  /**
   * A successful replacement with matches left removes exactly one match,
   * and the position moves back exactly when it pointed at the last match.
   */
  lemma ReplacedCountsDown(c: Counter)
    requires c.count > 0
    ensures var r := Replaced(c, true);
      && r.count == c.count - 1
      && (r.position == c.position - 1 <==> c.position == c.count)
      && (c.position != c.count ==> r.position == c.position)
      && (r.count == 0 ==> r.requestFocusFind)
      && (r.count != 0 ==> r.requestFocusReplace)
  {
  }

  /** A position within the matches stays within them. */
  lemma ReplacedKeepsPositionInRange(c: Counter, textReplaced: bool)
    requires c.position <= c.count
    ensures Replaced(c, textReplaced).position <= Replaced(c, textReplaced).count
  {
  }

  /** n successful replacements in a row. */
  function ReplacedTimes(c: Counter, n: nat): (r: Counter)
    decreases n
  {
    if n == 0 then c else Replaced(ReplacedTimes(c, n - 1), true)
  }

  /**
   * Replacing one match at a time, as many times as there are matches,
   * brings the count to zero and asks for the find field to take focus.
   */
  lemma {:induction false} ReplacingEveryMatch(c: Counter, n: nat)
    requires n <= c.count
    ensures ReplacedTimes(c, n).count == c.count - n
    ensures c.position <= c.count ==> ReplacedTimes(c, n).position <= ReplacedTimes(c, n).count
    ensures n == c.count && n > 0 ==> ReplacedTimes(c, n).requestFocusFind
    decreases n
  {
    if n > 0 {
      ReplacingEveryMatch(c, n - 1);
      var before := ReplacedTimes(c, n - 1);
      ReplacedCountsDown(before);
      if c.position <= c.count {
        ReplacedKeepsPositionInRange(before, true);
      }
    }
  }

  /** "Replace all": no matches and no position any more. */
  function ReplacedAll(c: Counter): (r: Counter)
    ensures r.count == 0 && r.position == 0 && r.requestFocusFind && r.updateCount
    ensures r.requestFocusReplace == c.requestFocusReplace
  {
    c.(count := 0, position := 0, requestFocusFind := true, updateCount := true)
  }

  /** After "replace all" the counter reads "no results". */
  lemma ReplacedAllShowsNoResults(c: Counter, noResults: string, of: string)
    ensures var r := ReplacedAll(c); CounterText(r.position, r.count, noResults, of) == noResults
  {
  }

  /** The dialog's statics and the by-reference position and count. */
  class Dialog {
    var position: u64
    var count: u64
    var requestFocusFind: bool
    var requestFocusReplace: bool
    var updateCount: bool
    var counterString: string

    function State(): Counter
      reads this
    {
      Counter(position, count, requestFocusFind, requestFocusReplace, updateCount)
    }

    constructor ()
      ensures State() == Counter(0, 0, false, false, false) && counterString == ""
    {
      position := 0;
      count := 0;
      requestFocusFind := false;
      requestFocusReplace := false;
      updateCount := false;
      counterString := "";
    }

    /** The counter refresh at the start of each frame's counter drawing. */
    method RefreshCounter(noResults: string, of: string)
      modifies this
      ensures old(updateCount) ==> counterString == CounterText(position, count, noResults, of)
      ensures !old(updateCount) ==> counterString == old(counterString)
      ensures State() == old(State()).(updateCount := false)
    {
      if updateCount {
        updateCount := false;
        if count == 0 || position == U64_MAX as u64 {
          counterString := noResults;
        } else {
          if position > SHOWN_LIMIT as u64 {
            counterString := "?";
          } else {
            counterString := Decimal(position) + " ";
          }
          counterString := counterString + of;
          if count > SHOWN_LIMIT as u64 {
            counterString := counterString + "1999+";
          } else {
            counterString := counterString + " " + Decimal(count);
          }
        }
      }
    }

    /** Bookkeeping after the replace widget fired. */
    method AfterReplace(textReplaced: bool)
      modifies this
      ensures State() == Replaced(old(State()), textReplaced)
      ensures counterString == old(counterString)
    {
      if textReplaced {
        if count > 0 {
          if position == count {
            position := position - 1;
          }
          count := count - 1;
          if count == 0 {
            requestFocusFind := true;
          } else {
            requestFocusReplace := true;
          }
        } else {
          requestFocusFind := true;
        }
        updateCount := true;
      }
    }

    /** Bookkeeping after "replace all". */
    method AfterReplaceAll()
      modifies this
      ensures State() == ReplacedAll(old(State()))
      ensures counterString == old(counterString)
    {
      count := 0;
      position := 0;
      requestFocusFind := true;
      updateCount := true;
    }
  }
}

/**
 * The logic of one "recent activity" row: the relative study time, the category icon and
 * colour, and the status and button text chosen from the deck's last-studied timestamp.
 */
module RecentItem {
  import opened Types

  const MillisPerHour: int := 3600000
  const MillisPerDay: int := 86400000

  // ---------------------------------------------------------------------------------------
  // Decimal rendering of a count, as a template literal renders a non-negative integer below 10^21.

  function DigitChar(d: nat): (c: char)
    requires d < 10
    ensures '0' <= c <= '9'
  {
    "0123456789"[d]
  }

  function DigitValue(c: char): (d: int)
  {
    c as int - '0' as int
  }

  /** The decimal digits of `n`, most significant first, without leading zeros. */
  function NatToString(n: nat): (s: string)
    ensures |s| >= 1
    ensures forall i :: 0 <= i < |s| ==> '0' <= s[i] <= '9'
    ensures n >= 10 ==> s[0] != '0'
  {
    if n < 10 then [DigitChar(n)] else NatToString(n / 10) + [DigitChar(n % 10)]
  }

  /** Reads a string of decimal digits back as a number (the inverse of NatToString). */
  function ParseDecimal(s: string): int
  {
    if s == [] then 0 else 10 * ParseDecimal(s[..|s| - 1]) + DigitValue(s[|s| - 1])
  }

  lemma {:induction false} ParseNatToString(n: nat)
    ensures ParseDecimal(NatToString(n)) == n
  {
    var s := NatToString(n);
    if n < 10 {
      assert s[..|s| - 1] == [];
      assert DigitValue(s[0]) == n by { assert s[0] == "0123456789"[n]; }
    } else {
      ParseNatToString(n / 10);
      assert s[..|s| - 1] == NatToString(n / 10);
      assert DigitValue(s[|s| - 1]) == n % 10 by { assert s[|s| - 1] == "0123456789"[n % 10]; }
    }
  }

  /** Distinct counts render as distinct text. */
  lemma NatToStringInjective(m: nat, n: nat)
    requires NatToString(m) == NatToString(n)
    ensures m == n
  {
    ParseNatToString(m);
    ParseNatToString(n);
  }

  // ---------------------------------------------------------------------------------------
  // Relative time.

  /** "<n> <unit> ago", with an "s" on the unit exactly when n is more than one. */
  function CountAgo(n: nat, unitName: string): string
  {
    NatToString(n) + " " + unitName + (if n > 1 then "s" else "") + " ago"
  }

  /**
   * The relative time shown for `timestamp` at time `now`. Whole hours and whole days are
   * floored, as Math.floor does; Dafny's division by a positive divisor floors for negative
   * dividends too, so a timestamp in the future gives a negative count and "Just now".
   */
  function TimeAgo(now: int, timestamp: int): (r: string)
    ensures var diff := now - timestamp;
      && (diff >= MillisPerDay ==> r == CountAgo(diff / MillisPerDay, "day"))
      && (MillisPerHour <= diff < MillisPerDay ==> r == CountAgo(diff / MillisPerHour, "hour"))
      && (diff < MillisPerHour ==> r == "Just now")
  {
    var diff := now - timestamp;
    var hours := diff / MillisPerHour;
    var days := hours / 24;
    FloorDivDiv(diff);
    if days > 0 then CountAgo(days, "day")
    else if hours > 0 then CountAgo(hours, "hour")
    else "Just now"
  }

  /** Flooring to whole hours and then to whole days is flooring to whole days. */
  lemma FloorDivDiv(diff: int)
    ensures (diff / MillisPerHour) / 24 == diff / MillisPerDay
    ensures diff / MillisPerHour > 0 <==> diff >= MillisPerHour
    ensures diff / MillisPerDay > 0 <==> diff >= MillisPerDay
  {
    var h := diff / MillisPerHour;
    var d := h / 24;
    assert MillisPerHour * h <= diff < MillisPerHour * h + MillisPerHour;
    assert 24 * d <= h < 24 * d + 24;
    assert MillisPerHour * (24 * d) <= MillisPerHour * h;
    assert MillisPerHour * h <= MillisPerHour * (24 * d + 23);
    assert MillisPerDay * d <= diff < MillisPerDay * d + MillisPerDay;
  }

  /** The text is "Just now" exactly when less than one full hour has elapsed. */
  lemma JustNowIffUnderAnHour(now: int, timestamp: int)
    ensures TimeAgo(now, timestamp) == "Just now" <==> now - timestamp < MillisPerHour
  {
    var diff := now - timestamp;
    if diff >= MillisPerHour {
      var n := if diff >= MillisPerDay then diff / MillisPerDay else diff / MillisPerHour;
      var u := if diff >= MillisPerDay then "day" else "hour";
      var s := CountAgo(n, u);
      assert s[|s| - 1] == 'o';
      assert "Just now"[7] == 'w';
    }
  }

  // ---------------------------------------------------------------------------------------
  // Category icon and colour.

  function Icon(category: string): string
  {
    match category
    case "Science" => "science"
    case "Language" => "language"
    case "History" => "history"
    case _ => "menu_book"
  }

  /** The light and dark class list of one colour: background, text, dark background, dark text. */
  function Palette(colour: string): string
  {
    "bg-" + colour + "-100 text-" + colour + "-600 dark:bg-[#233648] dark:text-" + colour + "-400"
  }

  function ColorClass(category: string): string
  {
    match category
    case "Science" => Palette("blue")
    case "Language" => Palette("orange")
    case "History" => Palette("purple")
    case _ => Palette("green")
  }

  predicate KnownCategory(category: string)
  {
    category == "Science" || category == "Language" || category == "History"
  }

  /**
   * Each known category has its own icon, every other category (including "General", the
   * category of imported decks) gets the book icon, and the icon never collides with a known one.
   */
  lemma IconMap(c1: string, c2: string)
    ensures Icon(c1) == "menu_book" <==> !KnownCategory(c1)
    ensures KnownCategory(c1) && KnownCategory(c2) ==> (Icon(c1) == Icon(c2) <==> c1 == c2)
  {
  }

  /** The colour follows the same partition: its own class per known category, green otherwise. */
  lemma ColorMap(c1: string, c2: string)
    ensures ColorClass(c1) == Palette("green") <==> !KnownCategory(c1)
    ensures KnownCategory(c1) && KnownCategory(c2) ==> (ColorClass(c1) == ColorClass(c2) <==> c1 == c2)
  {
    PaletteInitial("blue");
    PaletteInitial("orange");
    PaletteInitial("purple");
    PaletteInitial("green");
  }

  /** The class list's fourth character is the colour's initial, which tells the four apart. */
  lemma PaletteInitial(colour: string)
    requires colour != []
    ensures Palette(colour)[3] == colour[0]
  {
    assert Palette(colour) == "bg-" + (colour + ("-100 text-" + colour + "-600 dark:bg-[#233648] dark:text-" + colour + "-400"));
  }

  // ---------------------------------------------------------------------------------------
  // Status line and button.

  /** A present, non-zero timestamp: the truthiness test on an optional number. */
  predicate Studied(d: Deck)
  {
    d.lastStudiedAt.Some? && d.lastStudiedAt.value != 0
  }

  function StatusText(d: Deck, now: int): string
  {
    if Studied(d) then "Last studied " + TimeAgo(now, d.lastStudiedAt.value) else "Not started"
  }

  function ActionLabel(d: Deck): string
  {
    if Studied(d) then "Resume" else "Start"
  }

  /** The button offers to resume exactly when the status line reports a last study time. */
  lemma ResumeIffLastStudied(d: Deck, now: int)
    ensures ActionLabel(d) == "Resume" <==> StatusText(d, now) != "Not started"
    ensures d.lastStudiedAt == Some(0) ==> ActionLabel(d) == "Start" && StatusText(d, now) == "Not started"
  {
    if Studied(d) {
      var s := StatusText(d, now);
      assert s[0] == 'L';
      assert "Not started"[0] == 'N';
    }
  }
}

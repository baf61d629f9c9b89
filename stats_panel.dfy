/**
 * The duration formatter of the statistics panel and the guard that shows
 * the moving-time tile (formatTime and line 80 of
 * frontend/src/components/StatsPanel.tsx). Durations are whole seconds.
 */
module StatsPanel {
  import opened Wrappers

  // ---------------------------------------------------------------------
  // Decimal text of integers, as a template literal prints them
  // ---------------------------------------------------------------------

  predicate IsDigit(c: char)
  {
    '0' <= c <= '9'
  }

  function DigitChar(d: nat): (c: char)
    requires d < 10
    ensures IsDigit(c)
  {
    ('0' as int + d) as char
  }

  /** The decimal digits of n, without leading zeros. */
  function NatToString(n: nat): (r: string)
    ensures |r| >= 1
    decreases n
  {
    if n < 10 then [DigitChar(n)] else NatToString(n / 10) + [DigitChar(n % 10)]
  }

  /** `${n}` for an integer n: the digits of |n|, after a minus sign when n is negative. */
  function IntToString(n: int): (r: string)
    ensures |r| >= 1
    ensures n >= 0 ==> ParseNat(r) == Some(n)
    ensures n < 0 ==> r[0] == '-' && ParseNat(r[1..]) == Some(-n)
  {
    if n < 0 then
      ParseNatToString(-n);
      assert ("-" + NatToString(-n))[1..] == NatToString(-n);
      "-" + NatToString(-n)
    else
      ParseNatToString(n);
      NatToString(n)
  }

  lemma {:induction false} NatToStringDigits(n: nat)
    ensures forall k :: 0 <= k < |NatToString(n)| ==> IsDigit(NatToString(n)[k])
    decreases n
  {
    if n >= 10 {
      NatToStringDigits(n / 10);
    }
  }

  /** The value of a non-empty string of decimal digits, leading zeros allowed. */
  function ParseDigits(s: string): Option<nat>
  {
    if s == [] || !IsDigit(s[|s| - 1]) then None
    else
      var d := s[|s| - 1] as int - '0' as int;
      if |s| == 1 then Some(d)
      else match ParseDigits(s[..|s| - 1])
        case None => None
        case Some(v) => Some(10 * v + d)
  }

  /** Only "0" itself starts with the digit 0. */
  predicate NoLeadingZero(s: string)
  {
    |s| <= 1 || s[0] != '0'
  }

  /** Reads a number written in canonical decimal: digits only, and no leading zero. */
  function ParseNat(s: string): Option<nat>
  {
    if NoLeadingZero(s) then ParseDigits(s) else None
  }

  lemma {:induction false} NatToStringLeading(n: nat)
    ensures n < 10 <==> |NatToString(n)| == 1
    ensures n >= 10 ==> NatToString(n)[0] != '0'
    decreases n
  {
    if n >= 10 {
      NatToStringLeading(n / 10);
      assert NatToString(n)[0] == NatToString(n / 10)[0];
    }
  }

  lemma {:induction false} ParseDigitsToString(n: nat)
    ensures ParseDigits(NatToString(n)) == Some(n)
    decreases n
  {
    if n >= 10 {
      var s := NatToString(n);
      assert s[..|s| - 1] == NatToString(n / 10);
      ParseDigitsToString(n / 10);
    }
  }

  lemma ParseNatToString(n: nat)
    ensures ParseNat(NatToString(n)) == Some(n)
  {
    NatToStringLeading(n);
    ParseDigitsToString(n);
  }

  /** Text that parses is the canonical text of its value: the parser accepts one spelling per number. */
  lemma {:induction false} ParseNatCanonical(s: string)
    requires ParseNat(s).Some?
    ensures s == NatToString(ParseNat(s).value)
    decreases |s|
  {
    var d := s[|s| - 1] as int - '0' as int;
    if |s| > 1 {
      var p := s[..|s| - 1];
      var v := ParseDigits(p).value;
      assert NoLeadingZero(p) && p[0] == s[0];
      ParseNatCanonical(p);
      assert v != 0;
      var n := 10 * v + d;
      assert n / 10 == v && n % 10 == d;
      assert NatToString(n) == NatToString(v) + [DigitChar(d)];
      assert s == p + [s[|s| - 1]];
    }
  }

  // ---------------------------------------------------------------------
  // formatTime
  // ---------------------------------------------------------------------

  /** The quotient of a by a positive d, rounded toward zero. */
  function TruncDiv(a: int, d: int): int
    requires d > 0
  {
    if a >= 0 then a / d else -((-a) / d)
  }

  /** JavaScript's `a % d` for a positive d: the remainder takes the sign of a. */
  function JsRem(a: int, d: int): (r: int)
    requires d > 0
    ensures a >= 0 ==> 0 <= r < d
    ensures a < 0 ==> -d < r <= 0
    ensures a == d * TruncDiv(a, d) + r
  {
    if a >= 0 then a % d else -((-a) % d)
  }

  /**
   * `Math.floor(seconds / 3600)` and `Math.floor((seconds % 3600) / 60)`.
   * For a non-negative duration these are whole hours and the whole minutes
   * left over.
   */
  function Clock(seconds: int): (hm: (int, int))
    ensures seconds >= 0 ==> hm.0 >= 0 && 0 <= hm.1 < 60
    ensures seconds >= 0 ==> 3600 * hm.0 + 60 * hm.1 <= seconds < 3600 * hm.0 + 60 * hm.1 + 60
  {
    (seconds / 3600, JsRem(seconds, 3600) / 60)
  }

  /** `!seconds` for an optional whole number: undefined and 0 are falsy. */
  predicate Falsy(seconds: Option<int>): (f: bool)
    ensures f <==> seconds == None || seconds == Some(0)
  {
    seconds.None? || seconds.value == 0
  }

  /** formatTime: "N/A" for a missing or zero duration, else `${hours}h ${minutes}m`, or `${minutes}m` under an hour. */
  function FormatTime(seconds: Option<int>): (r: string)
    ensures |r| >= 1
    ensures r == "N/A" <==> Falsy(seconds)
    ensures !Falsy(seconds) ==> r[|r| - 1] == 'm'
  {
    if Falsy(seconds) then "N/A"
    else
      var (hours, minutes) := Clock(seconds.value);
      var text := if hours > 0 then IntToString(hours) + "h " + IntToString(minutes) + "m"
                  else IntToString(minutes) + "m";
      assert text[|text| - 1] != "N/A"[2];
      text
  }

  /** The first index of c in s, if c occurs. */
  function IndexOf(s: string, c: char): (r: Option<nat>)
    ensures r.Some? ==> r.value < |s| && s[r.value] == c && c !in s[..r.value]
    ensures r.None? ==> c !in s
  {
    if s == [] then None
    else if s[0] == c then Some(0)
    else match IndexOf(s[1..], c)
      case None => None
      case Some(k) => assert s[..k + 1] == [s[0]] + s[1..][..k]; Some(k + 1)
  }

  /** Reads hours and minutes back from "Hh Mm" or "Mm" text. */
  function ParseDuration(r: string): Option<(int, int)>
  {
    if r == [] || r[|r| - 1] != 'm' then None
    else
      var body := r[..|r| - 1];
      match IndexOf(body, 'h')
      case None =>
        (match ParseNat(body)
         case None => None
         case Some(m) => Some((0, m)))
      case Some(k) =>
        if k + 1 < |body| && body[k + 1] == ' ' then
          match (ParseNat(body[..k]), ParseNat(body[k + 2..]))
          case (Some(h), Some(m)) => Some((h, m))
          case _ => None
        else None
  }

  lemma NoLetterInDigits(n: nat, c: char)
    requires !IsDigit(c)
    ensures c !in NatToString(n)
  {
    NatToStringDigits(n);
  }

  /**
   * A positive duration's text gives back its hours and minutes, and it
   * has an hours part exactly when there is a whole hour.
   */
  lemma FormatTimeParses(seconds: int)
    requires seconds > 0
    ensures ParseDuration(FormatTime(Some(seconds))) == Some(Clock(seconds))
    ensures 'h' in FormatTime(Some(seconds)) <==> Clock(seconds).0 > 0
  {
    var (hours, minutes) := Clock(seconds);
    var r := FormatTime(Some(seconds));
    var body := r[..|r| - 1];
    ParseNatToString(minutes);
    NoLetterInDigits(minutes, 'h');
    if hours > 0 {
      var hs := NatToString(hours);
      var ms := NatToString(minutes);
      ParseNatToString(hours);
      NoLetterInDigits(hours, 'h');
      assert body == hs + "h " + ms;
      assert body[..|hs|] == hs;
      assert body[|hs| + 2..] == ms;
      assert IndexOf(body, 'h') == Some(|hs|);
      assert r[|hs|] == 'h';
    } else {
      assert body == NatToString(minutes);
      assert r == NatToString(minutes) + "m";
    }
  }

  // ---------------------------------------------------------------------
  // The moving-time tile
  // ---------------------------------------------------------------------

  /** What a JSX child expression puts on the page. */
  datatype Cell = Nothing | Text(text: string) | Tile(caption: string, value: string)

  /**
   * `{stats.moving_time && (<tile>)}` as written: `&&` yields the falsy
   * number itself, and React prints the number 0 as text.
   */
  function MovingTimeCellAsWritten(movingTime: Option<int>): (c: Cell)
    ensures movingTime.None? ==> c.Nothing?
    ensures movingTime == Some(0) <==> c == Text("0")
    ensures c.Tile? <==> !Falsy(movingTime)
    ensures c.Tile? ==> c.caption == "Moving Time" && c.value == FormatTime(movingTime) && c.value != "N/A"
  {
    match movingTime
    case None => Nothing
    case Some(t) => if t == 0 then Text("0") else Tile("Moving Time", FormatTime(movingTime))
  }

  /** A recorded moving time of zero puts a stray "0" into the statistics grid. */
  lemma ZeroMovingTimeShowsZero()
    ensures MovingTimeCellAsWritten(Some(0)) == Text("0")
  {
  }

  /** The guard as intended: the tile, or nothing at all. */
  function MovingTimeCell(movingTime: Option<int>): (c: Cell)
    ensures c.Tile? <==> !Falsy(movingTime)
    ensures c.Nothing? <==> Falsy(movingTime)
    ensures c.Tile? ==> c.value != "N/A" && c.value == FormatTime(movingTime)
  {
    if Falsy(movingTime) then Nothing else Tile("Moving Time", FormatTime(movingTime))
  }
}

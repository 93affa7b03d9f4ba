/**
  The presenter's text rules: `formatNumber` for the profile statistics (with
  the zero default for a missing statistic) and the participant-count label of
  `updateStats`.
*/
module Formatting {
  import opened Wrappers
  import opened GitHub
  import Text

  const Thousand: nat := 1000
  const Million: nat := 1000000

  /** The scaled value `t` (in tenths) is `num / unit` to within half a tenth. */
  predicate WithinHalfTenth(num: int, unit: nat, t: nat) {
    -(unit as int) <= 2 * (10 * num - t * unit) < unit
  }

  /**
    The quotient `num / unit` to one decimal place, as a number of tenths: the nearest multiple of
    one tenth, ties rounded up, computed on exact rationals.
  */
  function RoundedTenths(num: nat, unit: nat): (t: nat)
    requires unit > 0
    ensures WithinHalfTenth(num, unit, t)
  {
    var t := (20 * num + unit) / (2 * unit);
    var rem := (20 * num + unit) % (2 * unit);
    assert 20 * num + unit == t * (2 * unit) + rem;
    t
  }

  /** A count of tenths written with one decimal place: `12` becomes `"1.2"`. */
  function Tenths(t: nat): string {
    Text.NatToString(t / 10) + "." + [Text.DigitChar(t % 10)]
  }

  /** Reads text of the form `digits "." digit` back as a count of tenths. */
  function ParseTenths(s: string): Option<nat> {
    if |s| >= 3 && s[|s| - 2] == '.' && Text.AllDigits(s[..|s| - 2]) && Text.IsDigit(s[|s| - 1])
    then Some(Text.DigitsValue(s[..|s| - 2]) * 10 + Text.DigitValue(s[|s| - 1]))
    else None
  }

  lemma TenthsRoundTrip(t: nat)
    ensures ParseTenths(Tenths(t)) == Some(t)
  {
    var s := Tenths(t);
    var w := Text.NatToString(t / 10);
    assert s[..|s| - 2] == w;
    Text.NatToStringRoundTrip(t / 10);
    assert Text.DigitValue(Text.DigitChar(t % 10)) == t % 10;
  }

  /** The text of one profile statistic on a card. */
  function FormatNumber(num: int): string {
    if num >= Million then Tenths(RoundedTenths(num, Million)) + "M"
    else if num >= Thousand then Tenths(RoundedTenths(num, Thousand)) + "K"
    else Text.IntToString(num)
  }

  /**
    The suffix is chosen by threshold: "M" from one million, "K" from one
    thousand below that, none below one thousand; the figure before a suffix
    reads back as the value in that unit rounded to one decimal, and a value
    below one thousand is its own plain decimal text; no figure has a
    superfluous leading zero.
  */
  lemma FormatNumberSpec(num: int)
    ensures var r := FormatNumber(num);
            |r| >= 1 &&
            (num >= Million ==>
               r[|r| - 1] == 'M' && ParseTenths(r[..|r| - 1]).Some? &&
               WithinHalfTenth(num, Million, ParseTenths(r[..|r| - 1]).value)) &&
            (Thousand <= num < Million ==>
               r[|r| - 1] == 'K' && ParseTenths(r[..|r| - 1]).Some? &&
               WithinHalfTenth(num, Thousand, ParseTenths(r[..|r| - 1]).value)) &&
            (num < Thousand ==>
               Text.IsDigit(r[|r| - 1]) && Text.ParseInt(r) == Some(num)) &&
            (0 <= num < Thousand ==> Text.AllDigits(r) && (r[0] != '0' || |r| == 1)) &&
            (num < 0 ==> |r| >= 2 && r[0] == '-' && r[1] != '0') &&
            (num >= Thousand ==> r[0] != '0' || r[1] == '.')
  {
    var r := FormatNumber(num);
    if num >= Million {
      var t := RoundedTenths(num, Million);
      assert r[..|r| - 1] == Tenths(t);
      TenthsRoundTrip(t);
    } else if num >= Thousand {
      var t := RoundedTenths(num, Thousand);
      assert r[..|r| - 1] == Tenths(t);
      TenthsRoundTrip(t);
    } else {
      Text.IntToStringRoundTrip(num);
      if num < 0 {
        assert r[|r| - 1] == Text.NatToString(-num)[|r| - 2];
      }
    }
  }

  /** Worked examples, one per branch. */
  lemma FormatNumberExamples()
    ensures FormatNumber(950) == "950"
    ensures FormatNumber(1500) == "1.5K"
    ensures FormatNumber(2300000) == "2.3M"
  {
    assert RoundedTenths(1500, Thousand) == 15;
    assert RoundedTenths(2300000, Million) == 23;
  }

  /** A missing statistic counts as zero. */
  function StatOrZero(stat: Option<int>): int {
    match stat
    case Some(n) => n
    case None => 0
  }

  /** The three figures of a participant card: repositories, followers, following. */
  function CardStats(p: Profile): seq<string> {
    [FormatNumber(StatOrZero(p.publicRepos)),
     FormatNumber(StatOrZero(p.followers)),
     FormatNumber(StatOrZero(p.following))]
  }

  /**
    Each statistic defaults on its own: a missing one shows "0", a present one
    shows its formatted value.
  */
  lemma MissingStatsShowZero(p: Profile)
    ensures |CardStats(p)| == 3
    ensures p.publicRepos.None? ==> CardStats(p)[0] == "0"
    ensures p.followers.None? ==> CardStats(p)[1] == "0"
    ensures p.following.None? ==> CardStats(p)[2] == "0"
    ensures p.publicRepos.Some? ==> CardStats(p)[0] == FormatNumber(p.publicRepos.value)
    ensures p.followers.Some? ==> CardStats(p)[1] == FormatNumber(p.followers.value)
    ensures p.following.Some? ==> CardStats(p)[2] == FormatNumber(p.following.value)
  {
    assert Text.NatToString(0) == "0";
  }

  /** The count, a space and "participant", with an "s" added unless the count is one. */
  function CountLabel(n: nat): string {
    Text.IntToString(n) + " participant" + (if n != 1 then "s" else "")
  }

  /** Reads a count label back: the number before the first space, and whether it was pluralised. */
  function ParseCountLabel(s: string): Option<(int, bool)> {
    if |s| >= 13 && s[|s| - 13..] == " participants" then
      match Text.ParseInt(s[..|s| - 13])
      case Some(n) => Some((n, true))
      case None => None
    else if |s| >= 12 && s[|s| - 12..] == " participant" then
      match Text.ParseInt(s[..|s| - 12])
      case Some(n) => Some((n, false))
      case None => None
    else None
  }

  /** The label reads back as the count, marked plural exactly when the count is not one. */
  lemma CountLabelReadsBack(n: nat)
    ensures ParseCountLabel(CountLabel(n)) == Some((n, n != 1))
    ensures var s := CountLabel(n);
            var d := s[..|s| - (if n != 1 then 13 else 12)];
            |d| >= 1 && Text.AllDigits(d) && (|d| > 1 ==> d[0] != '0')
  {
    var s := CountLabel(n);
    var d := Text.IntToString(n);
    Text.IntToStringRoundTrip(n);
    if n != 1 {
      assert s[|s| - 13..] == " participants";
      assert s[..|s| - 13] == d;
    } else {
      assert s == "1 participant";
      assert s[|s| - 13..] != " participants" by {
        assert s[|s| - 13..][0] == '1';
      }
      assert s[|s| - 12..] == " participant";
      assert s[..|s| - 12] == d;
    }
  }

  /** The label is "1 participant" exactly for a count of one. */
  lemma CountLabelSingular(n: nat)
    ensures CountLabel(n) == "1 participant" <==> n == 1
  {
    var s := CountLabel(n);
    if n != 1 {
      assert s[|s| - 1] == 's';
      assert "1 participant"[12] == 't';
    }
  }

  /** Distinct counts give distinct labels. */
  lemma CountLabelInjective(m: nat, n: nat)
    requires CountLabel(m) == CountLabel(n)
    ensures m == n
  {
    CountLabelReadsBack(m);
    CountLabelReadsBack(n);
  }
}

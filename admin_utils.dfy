/** shiftbot_admin_siw1_rd3/utils.py: minute counts shown as `HH:MM`. */
module AdminUtils {
  import opened Wrappers
  import opened Format
  import opened Totals

  /** `mm_to_hhmm`: whole hours (rounded down) and the remaining minutes, each
      zero-padded to at least two characters, joined by ":". Dafny's `/` and
      `%` by a positive divisor round down like Python's `//` and `%`. */
  function MmToHhmm(minutes: int): (s: string)
    ensures |s| >= 5 && s[|s| - 3] == ':'
  {
    var m := minutes % 60;
    PadIntExact(m, 2);
    PadInt(minutes / 60, 2) + ":" + PadInt(m, 2)
  }

  /** Reads text of the form `H...H:MM` back as a number of minutes. */
  function ParseHhmm(s: string): Option<int>
  {
    if |s| >= 4 && s[|s| - 3] == ':' then
      match (ParseNat(s[..|s| - 3]), ParseNat(s[|s| - 2..]))
      case (Some(h), Some(m)) => Some(h * 60 + m)
      case _ => None
    else None
  }

  /** For a non-negative count the text shows `n div 60` and `n mod 60`, the
      minutes field is exactly two digits, and reading it back gives `n`. */
  lemma MmToHhmmRoundTrip(n: nat)
    ensures var s := MmToHhmm(n);
            && ParseNat(s[..|s| - 3]) == Some(n / 60)
            && ParseNat(s[|s| - 2..]) == Some(n % 60)
            && n % 60 < 60
            && ParseHhmm(s) == Some(n)
  {
    var h, m := n / 60, n % 60;
    var a, b := PadInt(h, 2), PadInt(m, 2);
    PadIntExact(m, 2);
    PadIntRoundTrip(h, 2);
    PadIntRoundTrip(m, 2);
    HhmmFields(a, b);
    var s := MmToHhmm(n);
    assert s == a + ":" + b;
    assert ParseNat(s[..|s| - 3]) == Some(h);
    assert ParseNat(s[|s| - 2..]) == Some(m);
  }

  /** The hours and the minutes text sit on either side of the colon. */
  lemma HhmmFields(a: string, b: string)
    requires |b| == 2
    ensures var s := a + ":" + b;
            |s| >= 3 && s[..|s| - 3] == a && s[|s| - 3] == ':' && s[|s| - 2..] == b
  {
  }
}

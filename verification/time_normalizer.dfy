/** Canonicalisation of shorthand clock times such as `9:30p` or `11a`. */
module TimeNormalizer {
  import opened Optional
  import opened Strings

  /** The trimmed, lower-cased form of a time string that the suffix test looks at. */
  function Canonical(s: string): string {
    Lower(Trim(s))
  }

  /** `s` ends with the shorthand meridiem letter `letter`. */
  predicate EndsWith(s: string, letter: char) {
    |s| > 0 && s[|s| - 1] == letter
  }

  /** A canonical string ends in the `p` or `a` shorthand. */
  predicate HasShorthand(c: string) {
    EndsWith(c, 'p') || EndsWith(c, 'a')
  }

  /** `normalizeTimeStr`: a time whose trimmed, lower-cased form ends in `p`
      (`a`) becomes that form with the letter replaced by ` PM` (` AM`); an
      absent or empty time, and any other time, is returned as given. */
  function NormalizeTimeStr(time: Option<string>): (r: Option<string>)
    ensures r.Some? <==> time.Some?
    ensures time.Some? ==> (r == time <==> time.value == "" || !HasShorthand(Canonical(time.value)))
    ensures r.Some? && r != time ==>
      && |r.value| >= 3
      && (r.value[|r.value| - 3..] == " PM" || r.value[|r.value| - 3..] == " AM")
      && Canonical(time.value)
         == r.value[..|r.value| - 3] + [if r.value[|r.value| - 2] == 'P' then 'p' else 'a']
  {
    match time
    case None => None
    case Some(s) =>
      if s == "" then time
      else
        var c := Canonical(s);
        if EndsWith(c, 'p') then
          ExpansionShape(c, 'p', " PM");
          ExpandedDiffers(s, c[..|c| - 1] + " PM");
          Some(c[..|c| - 1] + " PM")
        else if EndsWith(c, 'a') then
          ExpansionShape(c, 'a', " AM");
          ExpandedDiffers(s, c[..|c| - 1] + " AM");
          Some(c[..|c| - 1] + " AM")
        else time
  }

  /** Replacing the final shorthand letter of `c` by ` PM`/` AM` keeps the
      rest of `c` in front of the suffix. */
  lemma ExpansionShape(c: string, letter: char, suffix: string)
    requires EndsWith(c, letter) && |suffix| == 3 && suffix[2] == 'M'
    ensures var e := c[..|c| - 1] + suffix;
      && |e| >= 3 && e[|e| - 3..] == suffix && e[..|e| - 3] == c[..|c| - 1]
      && e[|e| - 2] == suffix[1] && EndsWith(e, 'M')
      && c == e[..|e| - 3] + [letter]
  {
    var e := c[..|c| - 1] + suffix;
    assert e[|e| - 3..] == suffix;
    assert e[..|e| - 3] == c[..|c| - 1];
    assert c == c[..|c| - 1] + [letter];
  }

  /** The canonical form of a string ending in an upper-case `M` ends in `m`,
      so it carries no shorthand. */
  lemma CanonicalOfMeridiem(s: string)
    requires EndsWith(s, 'M')
    ensures EndsWith(Canonical(s), 'm') && !HasShorthand(Canonical(s))
  {
    assert !IsTrimmable(s[|s| - 1]);
    TrimKeepsLastChar(s);
    var t := Trim(s);
    assert t[|t| - 1] == 'M';
    assert Canonical(s)[|t| - 1] == LowerChar('M');
  }

  /** An expansion ending in ` PM`/` AM` differs from any input whose canonical
      form carries a shorthand letter. */
  lemma ExpandedDiffers(s: string, expanded: string)
    requires HasShorthand(Canonical(s))
    requires EndsWith(expanded, 'M')
    ensures s != expanded
  {
    if s == expanded {
      CanonicalOfMeridiem(s);
    }
  }

  /** Normalising an already normalised time changes nothing. */
  lemma NormalizeIdempotent(time: Option<string>)
    ensures NormalizeTimeStr(NormalizeTimeStr(time)) == NormalizeTimeStr(time)
  {
    var r := NormalizeTimeStr(time);
    if r != time {
      CanonicalOfMeridiem(r.value);
    }
  }

  /** A time already written with AM/PM, in any case, is left untouched. */
  lemma MeridiemUnchanged(s: string)
    requires |s| > 0
    requires EndsWith(Canonical(s), 'm')
    ensures NormalizeTimeStr(Some(s)) == Some(s)
  {
  }
}

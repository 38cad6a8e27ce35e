/** `parseDateTime`: a date and an optional time, joined and tried against a
    fixed, ordered list of date-fns patterns; the first pattern that yields a
    valid date wins. */
module DateTimeParser {
  import opened Optional
  import opened Strings
  import opened Records

  /** A JavaScript `Date` value: milliseconds since the Unix epoch. */
  type Instant = int

  /** date-fns `parse(input, pattern, referenceDate)` followed by `isValid`:
      `Some` instant when the input matches the pattern and names a real
      calendar date, `None` otherwise. The calendar rules live in the library
      and reach the model only through this function. */
  type FormatParser = (string, string) -> Option<Instant>

  /** The accepted patterns, in priority order. */
  const Formats: seq<string> := [
    "yyyy-MM-dd HH:mm:ss",
    "MM/dd/yyyy h:mm:ss a",
    "MM/dd/yy h:mm a",
    "MM/dd/yyyy h:mm a",
    "M/d/yy h:m a",
    "MM/dd/yyyy HH:mm",
    "M/d/yyyy"
  ]

  /** The index of the first pattern in `formats` under which `input` parses. */
  function FirstSuccess(parse: FormatParser, formats: seq<string>, input: string): (r: Option<nat>)
    ensures r.Some? ==>
      && r.value < |formats|
      && parse(formats[r.value], input).Some?
      && forall j :: 0 <= j < r.value ==> parse(formats[j], input).None?
    ensures r.None? ==> forall j :: 0 <= j < |formats| ==> parse(formats[j], input).None?
  {
    if |formats| == 0 then None
    else if parse(formats[0], input).Some? then Some(0)
    else
      match FirstSuccess(parse, formats[1..], input)
      case None => None
      case Some(i) => Some(i + 1)
  }

  /** `${date} ${time}`.trim(), where an absent time takes the default `""`. */
  function Combine(date: string, time: Option<string>): string {
    Trim(date + " " + time.GetOr(""))
  }

  /** `parseDateTime(date, time)`. */
  function ParseDateTime(parse: FormatParser, date: Option<string>, time: Option<string>): (r: Option<Instant>)
    ensures !Truthy(date) ==> r.None?
    ensures Truthy(date) ==>
      (r.Some? <==> exists i :: 0 <= i < |Formats| && parse(Formats[i], Combine(date.value, time)).Some?)
    ensures r.Some? ==> exists i :: 0 <= i < |Formats| && FirstParseAt(parse, Combine(date.value, time), i, r.value)
  {
    if !Truthy(date) then None
    else
      var input := Combine(date.value, time);
      match FirstSuccess(parse, Formats, input)
      case None => None
      case Some(i) =>
        assert FirstParseAt(parse, input, i, parse(Formats[i], input).value);
        parse(Formats[i], input)
  }

  /** `input` parses to `v` under pattern `i`, and under no earlier pattern. */
  predicate FirstParseAt(parse: FormatParser, input: string, i: nat, v: Instant)
    requires i < |Formats|
  {
    && parse(Formats[i], input) == Some(v)
    && forall j :: 0 <= j < i ==> parse(Formats[j], input).None?
  }

  /** Tie-break: when the joined string parses under pattern `i` and under
      none before it, that parse is the result, whatever later patterns say. */
  lemma EarliestFormatWins(parse: FormatParser, date: string, time: Option<string>, i: nat)
    requires date != ""
    requires i < |Formats|
    requires parse(Formats[i], Combine(date, time)).Some?
    requires forall j :: 0 <= j < i ==> parse(Formats[j], Combine(date, time)).None?
    ensures ParseDateTime(parse, Some(date), time) == parse(Formats[i], Combine(date, time))
  {
    var input := Combine(date, time);
    var r := ParseDateTime(parse, Some(date), time);
    var k :| 0 <= k < |Formats| && FirstParseAt(parse, input, k, r.value);
    assert parse(Formats[k], input).Some?;
    assert k == i;
  }

  /** An empty time and an absent time give the same parse: the trailing
      space the join leaves is trimmed away. */
  lemma EmptyTimeIsNoTime(parse: FormatParser, date: Option<string>)
    ensures ParseDateTime(parse, date, Some("")) == ParseDateTime(parse, date, None)
    ensures Truthy(date) ==> Combine(date.value, None) == Trim(date.value)
  {
    if Truthy(date) {
      assert date.value + " " + "" == date.value + " ";
      TrimIgnoresTrailingSpace(date.value);
    }
  }
}

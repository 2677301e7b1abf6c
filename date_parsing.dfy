/** The `parse_dates` field validator that the Parent and Kid payloads share
    (four copies with the same behaviour in app/routes/parents.py and app/routes/kids.py). */
module DateParsing {
  import opened Common

  /** What the validator can be handed for a date field. */
  datatype DateInput =
    | NullInput                  // the field is None
    | TextInput(text: string)    // a string from the request
    | TemporalInput(value: Temporal)  // already a date or datetime object
    | OtherInput                 // any other JSON value (a number, a list, ...)

  /** The three entries of the validator's format list, in the order tried. */
  datatype Format = IsoDateTime | YearMonthDay | DayMonthYear

  const Formats: seq<Format> := [IsoDateTime, YearMonthDay, DayMonthYear]

  /** The date library, whose grammar is not part of this model: the ISO parser and
      strptime for one format, each answering None where Python raises. */
  datatype DateLibrary = DateLibrary(
    fromIsoFormat: string -> Option<Temporal>,
    strptime: (string, Format) -> Option<Temporal>)

  /** `.date()`: the calendar day of a date or datetime. */
  function DateOf(t: Temporal): (d: Temporal)
    ensures d.Date? && d.day == t.day
  {
    Date(t.day)
  }

  /** One try of the loop. The first entry contains a "T", so that try calls the ISO
      parser and ignores the format string; the other two call strptime and keep the day. */
  function Attempt(lib: DateLibrary, fmt: Format, s: string): (r: Option<Temporal>)
    ensures fmt == IsoDateTime ==> r == lib.fromIsoFormat(s)
    ensures fmt != IsoDateTime ==> (r.Some? <==> lib.strptime(s, fmt).Some?)
    ensures fmt != IsoDateTime && r.Some? ==> r.value.Date? && r.value.day == lib.strptime(s, fmt).value.day
  {
    if fmt == IsoDateTime then lib.fromIsoFormat(s)
    else match lib.strptime(s, fmt)
      case None => None
      case Some(t) => Some(DateOf(t))
  }

  /** The loop over the format list: the result of the first try that succeeds. */
  function TryFormats(lib: DateLibrary, fmts: seq<Format>, s: string): (r: Option<Temporal>)
    ensures r.None? <==> forall i :: 0 <= i < |fmts| ==> Attempt(lib, fmts[i], s).None?
    ensures r.Some? ==> exists i :: 0 <= i < |fmts| && Attempt(lib, fmts[i], s) == r
                                  && forall j :: 0 <= j < i ==> Attempt(lib, fmts[j], s).None?
  {
    if fmts == [] then None
    else match Attempt(lib, fmts[0], s)
      case Some(t) => Some(t)
      case None =>
        var r := TryFormats(lib, fmts[1..], s);
        assert forall i :: 1 <= i < |fmts| ==> fmts[i] == fmts[1..][i - 1];
        r
  }

  /** parse_dates: None and "" give no date, a date or datetime passes through, a
      string takes the first format that parses it, and anything else is invalid. */
  function ParseDate(lib: DateLibrary, v: DateInput): (r: Result<Option<Temporal>>)
    ensures v == NullInput || v == TextInput("") ==> r == Ok(None)
    ensures v.TemporalInput? ==> r == Ok(Some(v.value))
    ensures v.OtherInput? ==> r == Err(Invalid)
    ensures r.Err? ==> r.failure == Invalid
    ensures v.TextInput? && v.text != "" ==>
      (r.Ok? <==> exists i :: 0 <= i < |Formats| && Attempt(lib, Formats[i], v.text).Some?)
    ensures v.TextInput? && v.text != "" && r.Ok? ==>
      r.value.Some? &&
      exists i :: 0 <= i < |Formats| && Attempt(lib, Formats[i], v.text) == r.value
                  && forall j :: 0 <= j < i ==> Attempt(lib, Formats[j], v.text).None?
  {
    match v
    case NullInput => Ok(None)
    case TemporalInput(t) => Ok(Some(t))
    case OtherInput => Err(Invalid)
    case TextInput(s) =>
      if s == "" then Ok(None)
      else match TryFormats(lib, Formats, s)
        case Some(t) => Ok(Some(t))
        case None => Err(Invalid)
  }

  /** The ISO parser is tried first and also reads plain yyyy-mm-dd, so whatever it
      accepts is returned as it parsed it, and strptime is never consulted. */
  lemma IsoParserShadowsOthers(lib: DateLibrary, s: string, t: Temporal)
    requires s != "" && lib.fromIsoFormat(s) == Some(t)
    ensures ParseDate(lib, TextInput(s)) == Ok(Some(t))
  {
  }

  /** A string the ISO parser rejects is read by a strptime format, and then only its
      day is kept: the result is a Date, whichever format read it. */
  lemma StrptimeResultsAreDates(lib: DateLibrary, s: string)
    requires s != "" && lib.fromIsoFormat(s).None?
    requires ParseDate(lib, TextInput(s)).Ok?
    ensures ParseDate(lib, TextInput(s)).value.Some?
    ensures ParseDate(lib, TextInput(s)).value.value.Date?
  {
    var r := ParseDate(lib, TextInput(s));
    var i :| 0 <= i < |Formats| && Attempt(lib, Formats[i], s) == r.value;
    assert i != 0;
  }

  /** dd/mm/yyyy is used only when both earlier formats fail on the string. */
  lemma DayMonthYearIsLastResort(lib: DateLibrary, s: string, t: Temporal)
    requires s != "" && lib.fromIsoFormat(s).None? && lib.strptime(s, YearMonthDay).None?
    requires lib.strptime(s, DayMonthYear) == Some(t)
    ensures ParseDate(lib, TextInput(s)) == Ok(Some(Date(t.day)))
  {
    assert Attempt(lib, Formats[2], s) == Some(Date(t.day));
    var r := TryFormats(lib, Formats, s);
    var i :| 0 <= i < |Formats| && Attempt(lib, Formats[i], s) == r
               && forall j :: 0 <= j < i ==> Attempt(lib, Formats[j], s).None?;
    assert Attempt(lib, Formats[0], s).None? && Attempt(lib, Formats[1], s).None?;
  }
}

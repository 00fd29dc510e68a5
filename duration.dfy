/**
 * `VideoCard.formatDuration`: a duration in whole seconds rendered as
 * `H:MM:SS` when it reaches an hour and as `M:SS` below that, or the word
 * "Desconocida" when the duration is missing or zero.
 */
module Duration {
  import opened Wrappers
  import opened Decimal
  import opened Text

  const Unknown: string := "Desconocida"

  function Hours(seconds: nat): nat { seconds / 3600 }

  function Minutes(seconds: nat): nat { (seconds % 3600) / 60 }

  function Secs(seconds: nat): nat { seconds % 60 }

  /** Absent (`undefined`, `null`) and zero durations are both falsy and read "Desconocida". */
  function FormatDuration(seconds: Option<nat>): string
  {
    match seconds
    case None => Unknown
    case Some(s) =>
      if s == 0 then Unknown
      else if Hours(s) > 0 then NatToString(Hours(s)) + ":" + PadTwo(Minutes(s)) + ":" + PadTwo(Secs(s))
      else NatToString(Minutes(s)) + ":" + PadTwo(Secs(s))
  }

  /** The three fields are an exact decomposition of the duration. */
  lemma Decomposition(s: nat)
    ensures Minutes(s) < 60 && Secs(s) < 60
    ensures Hours(s) * 3600 + Minutes(s) * 60 + Secs(s) == s
  {
    var r := s % 3600;
    assert s == Hours(s) * 3600 + r;
    assert r == Minutes(s) * 60 + r % 60;
    assert r % 60 == s % 60 by {
      assert s == (Hours(s) * 60) * 60 + r;
    }
  }

  /** From one hour on: unpadded hours, then minutes and seconds as exactly two digits each. */
  lemma LongForm(s: nat)
    requires Hours(s) > 0
    ensures exists mm: string, ss: string ::
      FormatDuration(Some(s)) == NatToString(Hours(s)) + ":" + mm + ":" + ss
      && |mm| == 2 && |ss| == 2 && AllDigits(mm) && AllDigits(ss)
      && ParseDigits(mm) == Minutes(s) && ParseDigits(ss) == Secs(s)
  {
    Decomposition(s);
    var mm, ss := PadTwo(Minutes(s)), PadTwo(Secs(s));
    assert FormatDuration(Some(s)) == NatToString(Hours(s)) + ":" + mm + ":" + ss;
  }

  /** Below one hour: unpadded minutes, then seconds as exactly two digits. */
  lemma ShortForm(s: nat)
    requires s > 0 && Hours(s) == 0
    ensures exists ss: string ::
      FormatDuration(Some(s)) == NatToString(Minutes(s)) + ":" + ss
      && |ss| == 2 && AllDigits(ss) && ParseDigits(ss) == Secs(s)
  {
    Decomposition(s);
    var ss := PadTwo(Secs(s));
    assert FormatDuration(Some(s)) == NatToString(Minutes(s)) + ":" + ss;
  }

  predicate IsNumeral(field: string)
  {
    field != [] && AllDigits(field)
  }

  /** Reads `H:MM:SS` or `M:SS` back into seconds; anything else reads as nothing. */
  function ReadDuration(text: string): Option<nat>
  {
    var fields := Split(text, ':');
    if |fields| == 3 && IsNumeral(fields[0]) && IsNumeral(fields[1]) && IsNumeral(fields[2]) then
      Some(ParseDigits(fields[0]) * 3600 + ParseDigits(fields[1]) * 60 + ParseDigits(fields[2]))
    else if |fields| == 2 && IsNumeral(fields[0]) && IsNumeral(fields[1]) then
      Some(ParseDigits(fields[0]) * 60 + ParseDigits(fields[1]))
    else None
  }

  lemma NumeralHasNoColon(s: string)
    requires AllDigits(s)
    ensures ':' !in s
  {
    assert forall i | 0 <= i < |s| :: s[i] != ':';
  }

  /** An `H:MM:SS`-shaped text reads as hours, minutes and seconds. */
  lemma ReadThreeFields(h: string, m: string, sec: string)
    requires IsNumeral(h) && IsNumeral(m) && IsNumeral(sec)
    ensures ReadDuration(h + ":" + m + ":" + sec)
         == Some(ParseDigits(h) * 3600 + ParseDigits(m) * 60 + ParseDigits(sec))
  {
    NumeralHasNoColon(h);
    NumeralHasNoColon(m);
    NumeralHasNoColon(sec);
    SplitNoSep(sec, ':');
    assert h + ":" + m + ":" + sec == h + [':'] + (m + [':'] + sec);
    SplitHead(m, ':', sec);
    SplitHead(h, ':', m + [':'] + sec);
  }

  /** An `M:SS`-shaped text reads as minutes and seconds. */
  lemma ReadTwoFields(m: string, sec: string)
    requires IsNumeral(m) && IsNumeral(sec)
    ensures ReadDuration(m + ":" + sec) == Some(ParseDigits(m) * 60 + ParseDigits(sec))
  {
    NumeralHasNoColon(m);
    NumeralHasNoColon(sec);
    SplitNoSep(sec, ':');
    assert m + ":" + sec == m + [':'] + sec;
    SplitHead(m, ':', sec);
  }

  /** Reading the rendering of a positive duration gives the duration back. */
  lemma RoundTrip(s: nat)
    requires s > 0
    ensures ReadDuration(FormatDuration(Some(s))) == Some(s)
  {
    if Hours(s) > 0 {
      RoundTripLong(s);
    } else {
      RoundTripShort(s);
    }
  }

  lemma RoundTripLong(s: nat)
    requires Hours(s) > 0
    ensures ReadDuration(FormatDuration(Some(s))) == Some(s)
  {
    var h, m, sec := Hours(s), Minutes(s), Secs(s);
    Decomposition(s);
    ParseNatToString(h);
    var hh, mm, ss := NatToString(h), PadTwo(m), PadTwo(sec);
    assert FormatDuration(Some(s)) == hh + ":" + mm + ":" + ss;
    ReadThreeFields(hh, mm, ss);
    assert ParseDigits(hh) * 3600 + ParseDigits(mm) * 60 + ParseDigits(ss) == h * 3600 + m * 60 + sec;
  }

  lemma RoundTripShort(s: nat)
    requires s > 0 && Hours(s) == 0
    ensures ReadDuration(FormatDuration(Some(s))) == Some(s)
  {
    var m, sec := Minutes(s), Secs(s);
    Decomposition(s);
    ParseNatToString(m);
    var mm, ss := NatToString(m), PadTwo(sec);
    assert FormatDuration(Some(s)) == mm + ":" + ss;
    ReadTwoFields(mm, ss);
    assert ParseDigits(mm) * 60 + ParseDigits(ss) == m * 60 + sec;
  }

  /** Two positive durations never render alike. */
  lemma Injective(a: nat, b: nat)
    requires a > 0 && b > 0
    requires FormatDuration(Some(a)) == FormatDuration(Some(b))
    ensures a == b
  {
    RoundTrip(a);
    RoundTrip(b);
  }

  /** "Desconocida" is produced for a missing or zero duration and for nothing else. */
  lemma UnknownExactly(seconds: Option<nat>)
    ensures FormatDuration(seconds) == Unknown <==> seconds == None || seconds == Some(0)
  {
    if seconds.Some? && seconds.value > 0 {
      RoundTrip(seconds.value);
      UnknownReadsAsNothing(Unknown);
    }
  }

  lemma UnknownReadsAsNothing(text: string)
    requires text == "Desconocida"
    ensures ReadDuration(text) == None
  {
    assert ':' !in text;
    SplitNoSep(text, ':');
  }
}

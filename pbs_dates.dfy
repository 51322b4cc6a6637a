/** The scheduler's native date text, "Wed Sep 25 14:30:45 2024": strptime's "%a %b %d %H:%M:%S %Y"
    in the C locale, and its reformatting as "YYYY-MM-DD" (bin/pbs_stats.py, parse_pbs_date and
    format_pbs_date). */
module PbsDates {
  import opened Wrappers
  import opened Text
  import opened Calendar

  const DayNames: seq<string> := ["Mon", "Tue", "Wed", "Thu", "Fri", "Sat", "Sun"]
  const MonthNames: seq<string> :=
    ["Jan", "Feb", "Mar", "Apr", "May", "Jun", "Jul", "Aug", "Sep", "Oct", "Nov", "Dec"]

  function Lower(c: char): char
  {
    if 'A' <= c <= 'Z' then ((c as int) + 32) as char else c
  }

  /** strptime matches names ignoring case. */
  predicate SameLetters(a: string, b: string)
  {
    |a| == |b| && forall i :: 0 <= i < |a| ==> Lower(a[i]) == Lower(b[i])
  }

  /** The position of the first name in `names` that `w` spells, ignoring case. */
  function NameIndex(w: string, names: seq<string>): (r: Option<nat>)
    ensures r.Some? ==> r.value < |names| && SameLetters(w, names[r.value])
    ensures r.None? ==> forall i :: 0 <= i < |names| ==> !SameLetters(w, names[i])
  {
    if |names| == 0 then None
    else if SameLetters(w, names[0]) then Some(0)
    else match NameIndex(w, names[1..])
      case Some(i) => Some(i + 1)
      case None => None
  }

  /** One numeric field of one or two ASCII digits followed by its separator; the value and the text
      after the separator. Range limits are checked once all fields are read. strptime's %d also
      accepts a space followed by one digit (ctime's " 5"); that form is not modelled here. */
  function Field(t: string, sep: char): (r: Option<(nat, string)>)
    ensures r.Some? ==> r.value.0 < 100 && |r.value.1| < |t|
  {
    if |t| >= 2 && IsDigit(t[0]) && t[1] == sep then Some((DigitValue(t[0]), t[2..]))
    else if |t| >= 3 && IsDigit(t[0]) && IsDigit(t[1]) && t[2] == sep then
      Some((10 * DigitValue(t[0]) + DigitValue(t[1]), t[3..]))
    else None
  }

  /** The fields after the month name, "%d %H:%M:%S %Y", for month `month`; None when they do not
      match or do not form a real date and time. */
  function ParseNumbers(month: int, t0: string): (r: Option<DateTime>)
    ensures r.Some? ==> r.value.Valid() && r.value.micro == 0
  {
    match Field(t0, ' ')
    case None => None
    case Some((day, t1)) =>
      match Field(t1, ':')
      case None => None
      case Some((hour, t2)) =>
        match Field(t2, ':')
        case None => None
        case Some((minute, t3)) =>
          match Field(t3, ' ')
          case None => None
          case Some((second, t4)) =>
            if |t4| == 4 && AllDigits(t4) then
              var d := Date(DigitsValue(t4), month, day);
              if ValidDate(d) && hour < 24 && minute < 60 && second < 60
              then Some(DateTime(d, hour, minute, second, 0))
              else None
            else None
  }

  /** strptime(s, "%a %b %d %H:%M:%S %Y") with single spaces; None for any text that does not match
      or that names an impossible date or time (the ValueError parse_pbs_date catches). The weekday
      name must be one, but it is not checked against the date. */
  function ParsePbsText(s: string): (r: Option<DateTime>)
    ensures r.Some? ==> r.value.Valid() && r.value.micro == 0
  {
    if |s| < 8 || s[3] != ' ' || s[7] != ' ' || NameIndex(s[..3], DayNames).None? then None
    else
      var month := NameIndex(s[4..7], MonthNames);
      if month.None? then None
      else ParseNumbers(month.value + 1, s[8..])
  }

  /** parse_pbs_date: None for a NULL or empty value, otherwise the strptime result. */
  function ParsePbsDate(s: Option<string>): (r: Option<DateTime>)
    ensures (s.None? || s.value == "") ==> r.None?
    ensures r.Some? ==> r.value.Valid() && r.value.micro == 0
  {
    if s.None? || s.value == "" then None else ParsePbsText(s.value)
  }

  /** strftime("%Y-%m-%d"). */
  function IsoDate(d: Date): (r: string)
    requires ValidDate(d)
    ensures |r| == 10 && r[4] == '-' && r[7] == '-'
    ensures AllDigits(r[..4]) && AllDigits(r[5..7]) && AllDigits(r[8..])
    ensures DigitsValue(r[..4]) == d.year && DigitsValue(r[5..7]) == d.month && DigitsValue(r[8..]) == d.day
  {
    Pow10Values();
    var y, m, dd := ZeroPad(d.year, 4), ZeroPad(d.month, 2), ZeroPad(d.day, 2);
    var r := y + "-" + m + "-" + dd;
    assert r[..4] == y && r[5..7] == m && r[8..] == dd;
    r
  }

  /** format_pbs_date: "N/A" exactly when the text does not parse, otherwise the parsed year, month and
      day as "YYYY-MM-DD". */
  function FormatPbsDate(s: Option<string>): (r: string)
    ensures r == "N/A" <==> ParsePbsDate(s).None?
    ensures ParsePbsDate(s).Some? ==>
      var d := ParsePbsDate(s).value.date;
      && |r| == 10 && r[4] == '-' && r[7] == '-'
      && AllDigits(r[..4]) && AllDigits(r[5..7]) && AllDigits(r[8..])
      && DigitsValue(r[..4]) == d.year && DigitsValue(r[5..7]) == d.month && DigitsValue(r[8..]) == d.day
  {
    match ParsePbsDate(s)
    case None => "N/A"
    case Some(t) => IsoDate(t.date)
  }

  lemma Pow10Values()
    ensures Pow10(2) == 100 && Pow10(4) == 10000
  {
    assert Pow10(1) == 10;
    assert Pow10(2) == 100;
    assert Pow10(3) == 1000;
  }

  // ---------------------------------------------------------------------------------------------
  // What a successful parse says about the text

  /** One or two ASCII digits worth `v`: what %d, %H, %M and %S read here. */
  predicate Numeral(f: string, v: int)
  {
    1 <= |f| <= 2 && AllDigits(f) && DigitsValue(f) == v
  }

  /** `t` is a numeral worth `v`, then `sep`, then `rest`. */
  ghost predicate NumeralThen(t: string, v: int, sep: char, rest: string)
  {
    exists f :: Numeral(f, v) && t == f + [sep] + rest
  }

  /** The text after the month name spells `t`: day, hour, minute and second as one- or two-digit
      numerals and the year as four digits, laid out as "%d %H:%M:%S %Y" with single spaces. */
  ghost predicate SpellsNumbers(t0: string, t: DateTime)
  {
    exists t1, t2, t3, y ::
      && NumeralThen(t0, t.date.day, ' ', t1) && NumeralThen(t1, t.hour, ':', t2)
      && NumeralThen(t2, t.minute, ':', t3) && NumeralThen(t3, t.second, ' ', y)
      && |y| == 4 && AllDigits(y) && DigitsValue(y) == t.date.year
  }

  /** A field that reads is a numeral of its value, then the separator, then the rest. */
  lemma FieldSound(t: string, sep: char)
    requires !IsDigit(sep) && Field(t, sep).Some?
    ensures NumeralThen(t, Field(t, sep).value.0, sep, Field(t, sep).value.1)
  {
    if |t| >= 2 && IsDigit(t[0]) && t[1] == sep {
      var f := t[..1];
      assert f[..0] == [];
      assert t == f + [sep] + t[2..];
      assert Numeral(f, Field(t, sep).value.0);
    } else {
      var f := t[..2];
      assert f[..1] == [t[0]];
      assert [t[0]][..0] == [];
      assert DigitsValue(f[..1]) == DigitValue(t[0]);
      assert DigitsValue(f) == 10 * DigitValue(t[0]) + DigitValue(t[1]);
      assert t == f + [sep] + t[3..];
      assert Numeral(f, Field(t, sep).value.0);
    }
  }

  /** A successful parse of the numeric fields reads each field of the result in turn. */
  lemma ParseNumbersFields(month: int, t0: string, t: DateTime) returns (t1: string, t2: string, t3: string, t4: string)
    requires ParseNumbers(month, t0) == Some(t)
    ensures Field(t0, ' ') == Some((t.date.day, t1)) && Field(t1, ':') == Some((t.hour, t2))
    ensures Field(t2, ':') == Some((t.minute, t3)) && Field(t3, ' ') == Some((t.second, t4))
    ensures |t4| == 4 && AllDigits(t4) && DigitsValue(t4) == t.date.year && t.date.month == month
  {
    t1 := Field(t0, ' ').value.1;
    t2 := Field(t1, ':').value.1;
    t3 := Field(t2, ':').value.1;
    t4 := Field(t3, ' ').value.1;
  }

  /** Fields that read in turn spell the datetime built from their values. */
  lemma FieldsSpell(t0: string, t1: string, t2: string, t3: string, t4: string, t: DateTime)
    requires Field(t0, ' ') == Some((t.date.day, t1)) && Field(t1, ':') == Some((t.hour, t2))
    requires Field(t2, ':') == Some((t.minute, t3)) && Field(t3, ' ') == Some((t.second, t4))
    requires |t4| == 4 && AllDigits(t4) && DigitsValue(t4) == t.date.year
    ensures SpellsNumbers(t0, t)
  {
    FieldSound(t0, ' ');
    FieldSound(t1, ':');
    FieldSound(t2, ':');
    FieldSound(t3, ' ');
  }

  /** The numeric fields parse only when the text spells the result, in the month given. */
  lemma ParseNumbersSound(month: int, t0: string, t: DateTime)
    requires ParseNumbers(month, t0) == Some(t)
    ensures t.date.month == month && SpellsNumbers(t0, t)
  {
    var t1, t2, t3, t4 := ParseNumbersFields(month, t0, t);
    FieldsSpell(t0, t1, t2, t3, t4, t);
  }

  /** Soundness of the parser: text that parses has a weekday name, the name of the result's month
      and the numeric fields spelling the result, with single spaces. ParsePbsTextComplete is the
      converse. */
  lemma ParsePbsTextSound(s: string, t: DateTime)
    requires ParsePbsText(s) == Some(t)
    ensures |s| >= 8 && s[3] == ' ' && s[7] == ' '
    ensures exists w :: 0 <= w < 7 && SameLetters(s[..3], DayNames[w])
    ensures 1 <= t.date.month <= 12 && SameLetters(s[4..7], MonthNames[t.date.month - 1])
    ensures SpellsNumbers(s[8..], t)
  {
    var w := NameIndex(s[..3], DayNames).value;
    var month := NameIndex(s[4..7], MonthNames).value;
    ParseNumbersSound(month + 1, s[8..], t);
  }

  /** Date text with the weekday name at index `w`, the month name of `month` and the other fields
      zero-padded, separated by single spaces; the numbers need not form a real date. */
  function PbsFields(w: nat, month: int, day: nat, hour: nat, minute: nat, second: nat, year: nat): string
    requires w < 7 && 1 <= month <= 12 && day < 100 && hour < 100 && minute < 100 && second < 100
    requires year < 10000
  {
    Pow10Values();
    DayNames[w] + " " + MonthNames[month - 1] + " " + ZeroPad(day, 2) + " "
    + ZeroPad(hour, 2) + ":" + ZeroPad(minute, 2) + ":" + ZeroPad(second, 2) + " "
    + ZeroPad(year, 4)
  }

  /** The zero-padded text for `t`, in the layout parse_pbs_date reads. */
  function PbsText(w: nat, t: DateTime): string
    requires w < 7 && t.Valid()
  {
    PbsFields(w, t.date.month, t.date.day, t.hour, t.minute, t.second, t.date.year)
  }

  lemma FieldOfPadded(v: nat, sep: char, rest: string)
    requires v < 100 && !IsDigit(sep)
    ensures Field(ZeroPad(v, 2) + [sep] + rest, sep) == Some((v, rest))
  {
    Pow10Values();
    var t := ZeroPad(v, 2) + [sep] + rest;
    assert t[0] == ZeroPad(v, 2)[0] && t[1] == ZeroPad(v, 2)[1] && t[2] == sep;
    assert ZeroPad(v, 2)[..1] == ZeroPad(v, 2)[..2][..1];
    assert DigitsValue(ZeroPad(v, 2)) == 10 * DigitValue(t[0]) + DigitValue(t[1]) by {
      var z := ZeroPad(v, 2);
      assert z[..1][..0] == [];
      assert DigitsValue(z[..1]) == DigitValue(z[0]);
    }
    assert t[3..] == rest;
  }

  /** No two names of a list spell each other ignoring case. */
  predicate DistinctNames(names: seq<string>)
  {
    forall i, j :: 0 <= i < j < |names| ==> !SameLetters(names[j], names[i])
  }

  lemma {:induction false} NameIndexOfDistinct(names: seq<string>, k: nat)
    requires DistinctNames(names) && k < |names|
    ensures NameIndex(names[k], names) == Some(k)
  {
    if k > 0 {
      assert names[1..][k - 1] == names[k];
      NameIndexOfDistinct(names[1..], k - 1);
    }
  }

  lemma MonthNamesDistinct()
    ensures DistinctNames(MonthNames)
  {
    forall i, j | 0 <= i < j < 12 ensures !SameLetters(MonthNames[j], MonthNames[i]) {
      var a, b := MonthNames[j], MonthNames[i];
      assert Lower(a[0]) != Lower(b[0]) || Lower(a[1]) != Lower(b[1]) || Lower(a[2]) != Lower(b[2]);
    }
  }

  lemma MonthNameIndex(m: int)
    requires 1 <= m <= 12
    ensures NameIndex(MonthNames[m - 1], MonthNames) == Some(m - 1)
  {
    MonthNamesDistinct();
    NameIndexOfDistinct(MonthNames, m - 1);
  }

  /** The zero-padded numeric fields read back as themselves, subject to the range checks. */
  lemma ParsePaddedNumbers(month: int, day: nat, hour: nat, minute: nat, second: nat, year: nat)
    requires day < 100 && hour < 100 && minute < 100 && second < 100 && year < 10000
    ensures var d := Date(year, month, day);
      ParseNumbers(month, ZeroPad(day, 2) + " " + ZeroPad(hour, 2) + ":" + ZeroPad(minute, 2) + ":"
                          + ZeroPad(second, 2) + " " + ZeroPad(year, 4)) ==
        if ValidDate(d) && hour < 24 && minute < 60 && second < 60
        then Some(DateTime(d, hour, minute, second, 0)) else None
  {
    Pow10Values();
    var t4 := ZeroPad(year, 4);
    var t3 := ZeroPad(second, 2) + " " + t4;
    var t2 := ZeroPad(minute, 2) + ":" + t3;
    var t1 := ZeroPad(hour, 2) + ":" + t2;
    var t0 := ZeroPad(day, 2) + " " + t1;
    assert t0 == ZeroPad(day, 2) + " " + ZeroPad(hour, 2) + ":" + ZeroPad(minute, 2) + ":"
                 + ZeroPad(second, 2) + " " + ZeroPad(year, 4);
    FieldOfPadded(day, ' ', t1);
    FieldOfPadded(hour, ':', t2);
    FieldOfPadded(minute, ':', t3);
    FieldOfPadded(second, ' ', t4);
    assert |t4| == 4 && AllDigits(t4) && DigitsValue(t4) == year;
  }

  /** Past a weekday name and a month name the parser reads the numeric fields. */
  lemma ParseHeader(s: string, w: nat, month: int)
    requires w < 7 && 1 <= month <= 12 && |s| >= 8
    requires s[..3] == DayNames[w] && s[3] == ' ' && s[4..7] == MonthNames[month - 1] && s[7] == ' '
    ensures ParsePbsText(s) == ParseNumbers(month, s[8..])
  {
    assert NameIndex(s[..3], DayNames).Some? by {
      assert SameLetters(s[..3], DayNames[w]);
    }
    MonthNameIndex(month);
  }

  /** On well-shaped text the parser succeeds exactly when the fields form a real date and time,
      and then returns those fields; otherwise it returns None (Feb 30, second 60, year 0000, ...). */
  lemma ParsePbsFields(w: nat, month: int, day: nat, hour: nat, minute: nat, second: nat, year: nat)
    requires w < 7 && 1 <= month <= 12 && day < 100 && hour < 100 && minute < 100 && second < 100
    requires year < 10000
    ensures var d := Date(year, month, day);
      ParsePbsDate(Some(PbsFields(w, month, day, hour, minute, second, year))) ==
        if ValidDate(d) && hour < 24 && minute < 60 && second < 60
        then Some(DateTime(d, hour, minute, second, 0)) else None
  {
    Pow10Values();
    var s := PbsFields(w, month, day, hour, minute, second, year);
    var t0 := ZeroPad(day, 2) + " " + ZeroPad(hour, 2) + ":" + ZeroPad(minute, 2) + ":"
              + ZeroPad(second, 2) + " " + ZeroPad(year, 4);
    var head := DayNames[w] + " " + MonthNames[month - 1] + " ";
    assert s == head + t0;
    assert |head| == 8;
    assert s[..3] == DayNames[w] && s[3] == ' ' && s[4..7] == MonthNames[month - 1] && s[7] == ' ';
    assert s[8..] == t0;
    ParseHeader(s, w, month);
    ParsePaddedNumbers(month, day, hour, minute, second, year);
    assert ParsePbsDate(Some(s)) == ParsePbsText(s);
  }

  /** The parser reads back the zero-padded text of any datetime, whatever weekday name stands in front:
      parse_pbs_date(PbsText(w, t)) == t. */
  lemma ParsePbsTextRoundTrip(w: nat, t: DateTime)
    requires w < 7 && t.Valid() && t.micro == 0
    ensures ParsePbsDate(Some(PbsText(w, t))) == Some(t)
  {
    ParsePbsFields(w, t.date.month, t.date.day, t.hour, t.minute, t.second, t.date.year);
  }

  /** format_pbs_date on the zero-padded text for `t` is t's date as "YYYY-MM-DD". */
  lemma FormatPbsDateOfText(w: nat, t: DateTime)
    requires w < 7 && t.Valid() && t.micro == 0
    ensures FormatPbsDate(Some(PbsText(w, t))) == IsoDate(t.date)
  {
    ParsePbsTextRoundTrip(w, t);
  }

  // ---------------------------------------------------------------------------------------------
  // Every text of that shape naming a real date and time parses to it

  /** Texts that spell the same letters as one name spell the same letters as each other. */
  lemma SameLettersShared(a: string, b: string, c: string)
    ensures SameLetters(a, b) && SameLetters(a, c) ==> SameLetters(b, c)
  {
  }

  /** Among distinct names, one spelled ignoring case is found at its own index. */
  lemma {:induction false} NameIndexOfSame(names: seq<string>, w: string, k: nat)
    requires DistinctNames(names) && k < |names| && SameLetters(w, names[k])
    ensures NameIndex(w, names) == Some(k)
  {
    if k > 0 {
      SameLettersShared(w, names[k], names[0]);
      assert names[1..][k - 1] == names[k];
      assert DistinctNames(names[1..]) by {
        forall i, j | 0 <= i < j < |names| - 1 ensures !SameLetters(names[1..][j], names[1..][i]) {
          assert names[1..][j] == names[j + 1] && names[1..][i] == names[i + 1];
        }
      }
      NameIndexOfSame(names[1..], w, k - 1);
    }
  }

  /** A one- or two-digit numeral followed by its separator reads as its value. */
  lemma FieldComplete(f: string, v: int, sep: char, rest: string)
    requires Numeral(f, v) && !IsDigit(sep)
    ensures Field(f + [sep] + rest, sep) == Some((v, rest))
  {
    var t := f + [sep] + rest;
    assert IsDigit(f[0]) && t[0] == f[0];
    if |f| == 1 {
      assert f[..0] == [];
      assert DigitsValue(f) == DigitValue(f[0]);
      assert t[1] == sep && t[2..] == rest;
    } else {
      assert IsDigit(f[1]) && t[1] == f[1] && t[2] == sep && t[3..] == rest;
      assert f[..1] == [f[0]];
      assert [f[0]][..0] == [];
      assert DigitsValue(f[..1]) == DigitValue(f[0]);
      assert DigitsValue(f) == 10 * DigitValue(f[0]) + DigitValue(f[1]);
    }
  }

  /** Fields that spell a real date and time, in its own month, parse to it. */
  lemma ParseNumbersComplete(t0: string, t: DateTime)
    requires SpellsNumbers(t0, t) && t.Valid() && t.micro == 0
    ensures ParseNumbers(t.date.month, t0) == Some(t)
  {
    var t1, t2, t3, y :|
      && NumeralThen(t0, t.date.day, ' ', t1) && NumeralThen(t1, t.hour, ':', t2)
      && NumeralThen(t2, t.minute, ':', t3) && NumeralThen(t3, t.second, ' ', y)
      && |y| == 4 && AllDigits(y) && DigitsValue(y) == t.date.year;
    var f0 :| Numeral(f0, t.date.day) && t0 == f0 + [' '] + t1;
    var f1 :| Numeral(f1, t.hour) && t1 == f1 + [':'] + t2;
    var f2 :| Numeral(f2, t.minute) && t2 == f2 + [':'] + t3;
    var f3 :| Numeral(f3, t.second) && t3 == f3 + [' '] + y;
    FieldComplete(f0, t.date.day, ' ', t1);
    FieldComplete(f1, t.hour, ':', t2);
    FieldComplete(f2, t.minute, ':', t3);
    FieldComplete(f3, t.second, ' ', y);
  }

  /** Past a weekday name and the name of `month`, each in any letter case, the parser reads the
      numeric fields. */
  lemma ParseNamesThen(s: string, month: int)
    requires |s| >= 8 && s[3] == ' ' && s[7] == ' '
    requires exists w :: 0 <= w < 7 && SameLetters(s[..3], DayNames[w])
    requires 1 <= month <= 12 && NameIndex(s[4..7], MonthNames) == Some(month - 1)
    ensures ParsePbsText(s) == ParseNumbers(month, s[8..])
  {
    assert NameIndex(s[..3], DayNames).Some?;
  }

  /** Completeness of the parser: a weekday name, the month name of a real date and time (both
      ignoring case) and numeric fields spelling it, with single spaces, parse to that datetime. */
  lemma ParsePbsTextComplete(s: string, t: DateTime)
    requires |s| >= 8 && s[3] == ' ' && s[7] == ' '
    requires exists w :: 0 <= w < 7 && SameLetters(s[..3], DayNames[w])
    requires t.Valid() && t.micro == 0 && SameLetters(s[4..7], MonthNames[t.date.month - 1])
    requires SpellsNumbers(s[8..], t)
    ensures ParsePbsText(s) == Some(t)
  {
    MonthNamesDistinct();
    NameIndexOfSame(MonthNames, s[4..7], t.date.month - 1);
    ParseNamesThen(s, t.date.month);
    ParseNumbersComplete(s[8..], t);
  }
}

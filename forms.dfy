/** The form fields of the web interface that parse and render their own
    values (a comma-separated tag list, a Bugzilla bug id or URL, a
    `start:end` date range) and the two component helpers behind the
    component filters. */
module WebForms {
  import opened Wrappers
  import opened Text

  // ---------------------------------------------------------------------
  // `TagListField`

  /** The stripped, non-empty pieces, in order. */
  function KeepStripped(pieces: seq<string>): (r: seq<string>)
    ensures forall i :: 0 <= i < |r| ==> IsStripped(r[i]) && |r[i]| > 0
    ensures (forall i :: 0 <= i < |pieces| ==> ',' !in pieces[i]) ==> forall i :: 0 <= i < |r| ==> ',' !in r[i]
  {
    if |pieces| == 0 then []
    else
      var t := Strip(pieces[0]);
      var rest := KeepStripped(pieces[1..]);
      assert forall c :: c in t ==> c in pieces[0];
      assert forall i :: 0 <= i < |pieces| - 1 ==> pieces[1..][i] == pieces[i + 1];
      if t != "" then [t] + rest else rest
  }

  /** The tags of a submitted value: the comma-separated pieces, stripped,
      empty ones dropped. */
  function ParseTags(s: string): (tags: seq<string>)
    ensures forall i :: 0 <= i < |tags| ==> IsStripped(tags[i]) && |tags[i]| > 0 && ',' !in tags[i]
  {
    KeepStripped(Split(s, ','))
  }

  /** A tag that can be written and read back. */
  predicate PlainTag(t: string)
  {
    |t| > 0 && IsStripped(t) && ',' !in t
  }

  lemma StripSpaceBefore(t: string)
    requires |t| > 0 && IsStripped(t)
    ensures Strip(" " + t) == t
  {
    var s := " " + t;
    assert IsSpace(' ');
    assert SpanStart(s, 1) == 1;
    var r := Strip(s);
    assert StripOffset(s) == 1;
    assert r == s[1..] == t;
  }

  lemma CommaSpace(a: string, b: string)
    ensures a + ", " + b == a + "," + (" " + b)
  {
    var x := a + ",";
    assert a + ", " == x + " ";
    assert (x + " ") + b == x + (" " + b);
  }

  /** Each piece prefixed by a space. */
  function Spaced(ts: seq<string>): (r: seq<string>)
    ensures |r| == |ts| && forall i :: 0 <= i < |ts| ==> r[i] == " " + ts[i]
  {
    if |ts| == 0 then [] else [" " + ts[0]] + Spaced(ts[1..])
  }

  /** `", ".join` is `",".join` of the pieces, after the first, prefixed by
      a space. */
  lemma {:induction false} JoinCommaSpace(ts: seq<string>)
    requires |ts| >= 1
    ensures " " + Join(ts, ", ") == Join(Spaced(ts), ",")
  {
    if |ts| > 1 {
      var rest := ts[1..];
      JoinCommaSpace(rest);
      assert Spaced(ts)[1..] == Spaced(rest);
      assert " " + Join(ts, ", ") == (" " + ts[0]) + "," + (" " + Join(rest, ", "));
    }
  }

  lemma {:induction false} KeepSpaced(ts: seq<string>)
    requires forall i :: 0 <= i < |ts| ==> PlainTag(ts[i])
    ensures KeepStripped(Spaced(ts)) == ts
  {
    if |ts| > 0 {
      var sp := Spaced(ts);
      StripSpaceBefore(ts[0]);
      KeepSpaced(ts[1..]);
      assert sp[1..] == Spaced(ts[1..]);
      assert KeepStripped(sp) == [ts[0]] + KeepStripped(sp[1..]);
      assert ts == [ts[0]] + ts[1..];
    }
  }

  /** Rendered tags are the first tag and the spaced others joined by ",". */
  lemma JoinRendered(ts: seq<string>)
    requires |ts| > 1
    ensures Join(ts, ", ") == Join([ts[0]] + Spaced(ts[1..]), ",")
  {
    var rest := ts[1..];
    JoinCommaSpace(rest);
    var pieces := [ts[0]] + Spaced(rest);
    var tail := Join(rest, ", ");
    calc {
      Join(ts, ", ");
      ts[0] + ", " + tail;
      { CommaSpace(ts[0], tail); }
      ts[0] + "," + (" " + tail);
      { assert pieces[1..] == Spaced(rest); }
      Join(pieces, ",");
    }
  }

  /** No piece of rendered plain tags holds a comma. */
  lemma NoCommaPieces(ts: seq<string>)
    requires |ts| > 0 && forall i :: 0 <= i < |ts| ==> PlainTag(ts[i])
    ensures forall i :: 0 <= i < |ts| ==> ',' !in ([ts[0]] + Spaced(ts[1..]))[i]
  {
    var pieces := [ts[0]] + Spaced(ts[1..]);
    forall i | 0 <= i < |ts| ensures ',' !in pieces[i] {
      if i > 0 {
        assert pieces[i] == " " + ts[1..][i - 1];
      }
    }
  }

  /** The pieces of rendered tags, split at ",". */
  lemma SplitRendered(ts: seq<string>)
    requires |ts| > 1 && forall i :: 0 <= i < |ts| ==> PlainTag(ts[i])
    ensures Split(Join(ts, ", "), ',') == [ts[0]] + Spaced(ts[1..])
  {
    JoinRendered(ts);
    NoCommaPieces(ts);
    SplitJoin([ts[0]] + Spaced(ts[1..]), ',');
  }

  /** The pieces of one or more rendered tags, split at ",". */
  lemma SplitTags(ts: seq<string>)
    requires |ts| > 0 && forall i :: 0 <= i < |ts| ==> PlainTag(ts[i])
    ensures Split(Join(ts, ", "), ',') == [ts[0]] + Spaced(ts[1..])
  {
    if |ts| == 1 {
      SplitJoin([ts[0]], ',');
      assert [ts[0]] == ts;
    } else {
      SplitRendered(ts);
    }
  }

  /** Keeping the stripped pieces of rendered tags gives the tags. */
  lemma KeepTags(ts: seq<string>)
    requires |ts| > 0 && forall i :: 0 <= i < |ts| ==> PlainTag(ts[i])
    ensures KeepStripped([ts[0]] + Spaced(ts[1..])) == ts
  {
    var rest := Spaced(ts[1..]);
    StrippedIsFixpoint(ts[0]);
    assert ([ts[0]] + rest)[1..] == rest;
    KeepSpaced(ts[1..]);
    assert [ts[0]] + ts[1..] == ts;
  }

  /** Reading back the rendered tags gives the tags. */
  lemma TagsRoundTrip(ts: seq<string>)
    requires |ts| > 0 && forall i :: 0 <= i < |ts| ==> PlainTag(ts[i])
    ensures ParseTags(Join(ts, ", ")) == ts
  {
    SplitTags(ts);
    KeepTags(ts);
  }

  /** No text reads back as no tags. */
  lemma NoTagsRoundTrip()
    ensures ParseTags("") == []
  {
    assert Split("", ',') == [""];
    assert Strip("") == "";
  }

  class TagListField {
    var data: Option<seq<string>>

    constructor ()
      ensures data == None
    {
      data := None;
    }

    /** The first submitted value's tags; no value gives no tags. */
    method ProcessFormdata(valuelist: seq<string>)
      modifies this
      ensures data == Some(if |valuelist| > 0 then ParseTags(valuelist[0]) else [])
    {
      if |valuelist| > 0 {
        data := Some(ParseTags(valuelist[0]));
      } else {
        data := Some([]);
      }
    }

    /** The tags joined by ", "; nothing for no tags. */
    function Value(): (r: string)
      reads this
      ensures data.None? || data.value == [] ==> r == ""
    {
      if data.Some? && |data.value| > 0 then Join(data.value, ", ") else ""
    }

    /** What the field renders reads back as its tags; no data reads back
        as no tags. */
    lemma ValueRoundTrip()
      requires data.Some? ==> forall i :: 0 <= i < |data.value| ==> PlainTag(data.value[i])
      ensures ParseTags(Value()) == data.GetOr([])
    {
      if data.Some? && |data.value| > 0 {
        TagsRoundTrip(data.value);
      } else {
        NoTagsRoundTrip();
      }
    }
  }

  // ---------------------------------------------------------------------
  // `BugIdField`

  const InvalidBugId := "Invalid Bug ID"

  /** A bug id written as a number, else the digits after the first "id="
      followed by a digit (a Bugzilla URL); none otherwise. */
  function BugIdOf(value: string): (r: Option<int>)
    ensures r.Some? <==> ParseInt(value).Some? || SearchIdNumber(value).Some?
    ensures ParseInt(value).Some? ==> r == ParseInt(value)
  {
    match ParseInt(value)
    case Some(n) => Some(n)
    case None =>
      match SearchIdNumber(value)
      case None => None
      case Some(digits) => Some(DigitsValue(digits))
  }

  /** A letter anywhere makes `int()` fail. */
  lemma ParseIntRejectsLetter(s: string, k: nat)
    requires k < |s| && 'a' <= s[k] <= 'z'
    ensures ParseInt(s).None?
  {
    VisibleNotSpace(s[k]);
    var t := Strip(s);
    var off := StripOffset(s);
    assert off <= k < off + |t|;
    assert t[k - off] == s[k];
    if |t| > 0 && (t[0] == '+' || t[0] == '-') {
      assert t[1..][k - off - 1] == s[k];
    }
  }

  /** The search skips a prefix without "=". */
  lemma {:induction false} SearchIdSkip(p: string, d: string)
    requires '=' !in p
    ensures SearchIdNumber(p + "id=" + d) == SearchIdNumber("id=" + d)
  {
    if |p| > 0 {
      var s := p + "id=" + d;
      assert s[2] != '=' by {
        if |p| >= 3 {
          assert s[2] == p[2];
        } else {
          assert s[2] == "id="[2 - |p|];
        }
      }
      assert s[1..] == p[1..] + "id=" + d;
      SearchIdSkip(p[1..], d);
    } else {
      assert p + "id=" + d == "id=" + d;
    }
  }

  /** A plain number reads back as itself, and a URL whose only "=" is the
      one of its final `id=N` reads back as N. */
  lemma BugIdReadBack(n: int, p: string, m: nat)
    requires '=' !in p
    ensures BugIdOf(IntToString(n)) == Some(n)
    ensures BugIdOf(p + "id=" + NatToString(m)) == Some(m)
  {
    IntRoundTrip(n);
    LinkReadBack(p, m);
  }

  /** A link ending in `id=` and a number reads back as that number. */
  lemma LinkReadBack(p: string, m: nat)
    requires '=' !in p
    ensures BugIdOf(p + "id=" + NatToString(m)) == Some(m)
  {
    var digits := NatToString(m);
    var s := p + "id=" + digits;
    assert s[|p|] == 'i';
    ParseIntRejectsLetter(s, |p|);
    SearchIdSkip(p, digits);
    var u := "id=" + digits;
    assert StartsWith(u, "id=") && u[3] == digits[0];
    assert u[3..] == digits;
    assert DigitRun(digits) == digits;
  }

  /** The position of the first value that is not a bug id. */
  predicate FirstInvalid(valuelist: seq<string>, k: int)
  {
    0 <= k < |valuelist| && BugIdOf(valuelist[k]).None? &&
    forall j :: 0 <= j < k ==> BugIdOf(valuelist[j]).Some?
  }

  class BugIdField {
    var data: Option<int>

    constructor ()
      ensures data == None
    {
      data := None;
    }

    /** Each value in turn sets the bug id, so the last one decides; the
        first value that is not a bug id stops with "Invalid Bug ID",
        leaving the id of the value before it. No value clears the id. */
    method ProcessFormdata(valuelist: seq<string>) returns (r: Result<()>)
      modifies this
      ensures |valuelist| == 0 ==> r.Ok? && data == None
      ensures r.Ok? <==> forall i :: 0 <= i < |valuelist| ==> BugIdOf(valuelist[i]).Some?
      ensures r.Ok? && |valuelist| > 0 ==> data == BugIdOf(valuelist[|valuelist| - 1])
      ensures r.Err? ==> r.msg == InvalidBugId
      ensures r.Err? ==> exists k :: FirstInvalid(valuelist, k) &&
                           data == if k == 0 then old(data) else BugIdOf(valuelist[k - 1])
    {
      if |valuelist| == 0 {
        data := None;
        return Ok(());
      }
      for i := 0 to |valuelist|
        invariant forall j :: 0 <= j < i ==> BugIdOf(valuelist[j]).Some?
        invariant data == if i == 0 then old(data) else BugIdOf(valuelist[i - 1])
      {
        var id := BugIdOf(valuelist[i]);
        if id.None? {
          assert FirstInvalid(valuelist, i);
          return Err(InvalidBugId);
        }
        data := id;
      }
      r := Ok(());
    }

    /** The id as a number, or nothing when there is none or it is 0. */
    function Value(): (r: string)
      reads this
      ensures r == "" <==> data.None? || data.value == 0
    {
      if data.Some? && data.value != 0 then IntToString(data.value) else ""
    }

    /** A non-zero id renders as text that reads back as the id; a zero id
        renders as nothing, which is not a bug id. */
    lemma ValueRoundTrip()
      ensures data.Some? && data.value != 0 ==> BugIdOf(Value()) == data
      ensures data == Some(0) ==> BugIdOf(Value()).None?
    {
      if data.Some? && data.value != 0 {
        BugIdReadBack(data.value, "", 0);
      }
      if data == Some(0) {
        assert Strip("") == "";
      }
    }
  }

  // ---------------------------------------------------------------------
  // `DaterangeField`

  /** A calendar date; validity against the length of each month is not
      modelled. */
  datatype Date = Date(year: int, month: int, day: int)

  predicate InRange(d: Date)
  {
    1 <= d.year <= 9999 && 1 <= d.month <= 12 && 1 <= d.day <= 31
  }

  function DigitOf(c: char): int
  {
    c as int - '0' as int
  }

  /** `%m` of `strptime`: `1[0-2]|0[1-9]|[1-9]`. */
  function ParseMonth(s: string): (r: Option<int>)
    ensures r.Some? ==> 1 <= r.value <= 12
  {
    if |s| == 1 && '1' <= s[0] <= '9' then Some(DigitOf(s[0]))
    else if |s| == 2 && s[0] == '0' && '1' <= s[1] <= '9' then Some(DigitOf(s[1]))
    else if |s| == 2 && s[0] == '1' && '0' <= s[1] <= '2' then Some(10 + DigitOf(s[1]))
    else None
  }

  /** `%d` of `strptime`: `3[01]|[12]\d|0[1-9]|[1-9]| [1-9]`, where `\d` is
      any Unicode decimal digit. */
  function ParseDay(s: string): (r: Option<int>)
    ensures r.Some? ==> 1 <= r.value <= 31
  {
    if |s| == 1 && '1' <= s[0] <= '9' then Some(DigitOf(s[0]))
    else if |s| == 2 && (s[0] == '0' || s[0] == ' ') && '1' <= s[1] <= '9' then Some(DigitOf(s[1]))
    else if |s| == 2 && '1' <= s[0] <= '2' && DecimalOf(s[1]).Some? then Some(10 * DigitOf(s[0]) + DecimalOf(s[1]).value)
    else if |s| == 2 && s[0] == '3' && '0' <= s[1] <= '1' then Some(30 + DigitOf(s[1]))
    else None
  }

  /** `strptime(s, "%Y-%m-%d")`: four Unicode decimal digits (`\d\d\d\d`)
      of a year from 1, a month and a day, separated by "-". */
  function ParseDate(s: string): (r: Option<Date>)
    ensures r.Some? ==> InRange(r.value)
  {
    DateOfPieces(Split(s, '-'))
  }

  /** The date of the pieces of `s.split("-")`: a year, a month and a day. */
  function DateOfPieces(parts: seq<string>): (r: Option<Date>)
    ensures r.Some? ==> InRange(r.value)
  {
    if |parts| == 3 && |parts[0]| == 4 && AllDecimal(parts[0]) && DecimalsValue(parts[0]) >= 1 then
      match (ParseMonth(parts[1]), ParseDay(parts[2]))
      case (Some(m), Some(d)) =>
        assert DecimalsValue(parts[0]) <= 9999 by { DecimalsBound(parts[0]); }
        Some(Date(DecimalsValue(parts[0]), m, d))
      case _ => None
    else None
  }

  lemma {:induction false} DecimalsBound(s: string)
    requires AllDecimal(s) && |s| <= 4
    ensures DecimalsValue(s) < if |s| == 0 then 1 else if |s| == 1 then 10 else if |s| == 2 then 100
                             else if |s| == 3 then 1000 else 10000
  {
    if |s| > 0 {
      DecimalsBound(s[..|s| - 1]);
    }
  }

  /** Two digits, zero-padded. */
  function Pad2(n: int): (r: string)
    requires 0 <= n < 100
    ensures |r| == 2 && AllDigits(r) && DigitsValue(r) == n
  {
    var r := [DigitChar(n / 10), DigitChar(n % 10)];
    assert r[..1] == [DigitChar(n / 10)] && r[..1][..0] == [];
    assert DigitsValue(r[..1]) == n / 10;
    r
  }

  /** `strftime("%Y-%m-%d")`; a year below 1000 is not padded. */
  function FormatDate(d: Date): (r: string)
    requires InRange(d)
  {
    NatToString(d.year) + "-" + Pad2(d.month) + "-" + Pad2(d.day)
  }

  lemma ParsePad2Month(n: int)
    requires 1 <= n <= 12
    ensures ParseMonth(Pad2(n)) == Some(n)
  {
  }

  lemma ParsePad2Day(n: int)
    requires 1 <= n <= 31
    ensures ParseDay(Pad2(n)) == Some(n)
  {
  }

  lemma FourDigits(n: int)
    requires 1000 <= n <= 9999
    ensures |NatToString(n)| == 4
  {
    assert NatToString(n) == NatToString(n / 10) + [DigitChar(n % 10)];
    assert NatToString(n / 10) == NatToString(n / 100) + [DigitChar(n / 10 % 10)];
    assert NatToString(n / 100) == NatToString(n / 1000) + [DigitChar(n / 100 % 10)];
  }

  /** A date of a four-digit year reads back as itself. */
  lemma DateRoundTrip(d: Date)
    requires InRange(d) && d.year >= 1000
    ensures ParseDate(FormatDate(d)) == Some(d)
  {
    var y := NatToString(d.year);
    DecimalsOfDigits(y);
    FourDigits(d.year);
    assert '-' !in y && '-' !in Pad2(d.month) && '-' !in Pad2(d.day);
    ParseDateJoin(y, Pad2(d.month), Pad2(d.day));
    ParsePad2Month(d.month);
    ParsePad2Day(d.day);
  }

  /** A date of three pieces without "-": four decimal digits of a year
      from 1, then a month and a day as `%m` and `%d` read them. */
  lemma ParseDateJoin(y: string, ms: string, ds: string)
    requires '-' !in y && '-' !in ms && '-' !in ds
    ensures ParseDate(y + "-" + ms + "-" + ds) ==
              if |y| == 4 && AllDecimal(y) && DecimalsValue(y) >= 1 && ParseMonth(ms).Some? && ParseDay(ds).Some?
              then Some(Date(DecimalsValue(y), ParseMonth(ms).value, ParseDay(ds).value))
              else None
  {
    SplitThree(y, ms, ds, '-');
    DateOfThree(y, ms, ds);
  }

  lemma DateOfThree(y: string, ms: string, ds: string)
    ensures DateOfPieces([y, ms, ds]) ==
              if |y| == 4 && AllDecimal(y) && DecimalsValue(y) >= 1 && ParseMonth(ms).Some? && ParseDay(ds).Some?
              then Some(Date(DecimalsValue(y), ParseMonth(ms).value, ParseDay(ds).value))
              else None
  {
  }

  /** The Arabic-Indic digit of value `d`. */
  function ArabicIndic(d: nat): (c: char)
    requires d < 10
    ensures DecimalOf(c) == Some(d)
  {
    assert DecimalZeros[..2] == [0x30, 0x660];
    DecimalAt(0x660 + d, DecimalZeros, 1);
    (0x660 + d) as char
  }

  /** Four Arabic-Indic digits make a year `strptime` reads (`\d\d\d\d`,
      then `int()`), and they hold no "-": with ParseDateJoin, such a year
      starts a date as ASCII digits do. */
  lemma ArabicIndicYear(a: nat, b: nat, c: nat, e: nat)
    requires a < 10 && b < 10 && c < 10 && e < 10
    ensures var y := [ArabicIndic(a), ArabicIndic(b), ArabicIndic(c), ArabicIndic(e)];
            && |y| == 4 && '-' !in y && AllDecimal(y)
            && DecimalsValue(y) == 1000 * a + 100 * b + 10 * c + e
  {
    FourDecimals(ArabicIndic(a), ArabicIndic(b), ArabicIndic(c), ArabicIndic(e));
  }

  /** A date has no ":" in it. */
  lemma NoColonInDate(d: Date)
    requires InRange(d)
    ensures ':' !in FormatDate(d)
  {
    var s := FormatDate(d);
    forall i | 0 <= i < |s| ensures s[i] != ':' {
      var y := NatToString(d.year);
      if i < |y| {
        assert s[i] == y[i];
      } else if i == |y| || i == |y| + 3 {
        assert s[i] == '-';
      } else if i < |y| + 3 {
        assert s[i] == Pad2(d.month)[i - |y| - 1];
      } else {
        assert s[i] == Pad2(d.day)[i - |y| - 4];
      }
    }
  }

  const BadDate := "ValueError: time data does not match format '%Y-%m-%d'"

  /** The range a submitted value gives: none when it is not two parts
      around ":", an error when a part is not a date. */
  function ParseDateRange(s: string): (r: Option<Result<(Date, Date)>>)
    ensures r.Some? <==> |Split(s, ':')| == 2
    ensures r.Some? && r.value.Err? ==> r.value.msg == BadDate
    ensures r.Some? ==> (r.value.Ok? <==> ParseDate(Split(s, ':')[0]).Some? && ParseDate(Split(s, ':')[1]).Some?)
    ensures r.Some? && r.value.Ok? ==>
              r.value.value == (ParseDate(Split(s, ':')[0]).value, ParseDate(Split(s, ':')[1]).value)
  {
    var parts := Split(s, ':');
    if |parts| != 2 then None
    else
      match (ParseDate(parts[0]), ParseDate(parts[1]))
      case (Some(a), Some(b)) => Some(Ok((a, b)))
      case _ => Some(Err(BadDate))
  }

  class DaterangeField {
    const defaultDays: int
    var data: Option<(Date, Date)>

    constructor (defaultDays: int)
      ensures this.defaultDays == defaultDays && data == None
    {
      this.defaultDays := defaultDays;
      data := None;
    }

    /** Two dates around ":" in the first value set the range, and a bad
        date there is an error that leaves it; anything else sets the
        default range, the `defaultDays` days up to today, or none when
        there is no default. Date arithmetic is `daysBefore`. */
    method ProcessFormdata(valuelist: seq<string>, today: Date, daysBefore: (Date, int) -> Date)
      returns (r: Result<()>)
      modifies this
      ensures var parsed := if |valuelist| > 0 then ParseDateRange(valuelist[0]) else None;
              && (r.Err? <==> parsed.Some? && parsed.value.Err?)
              && (r.Err? ==> r.msg == BadDate && data == old(data))
              && (parsed.Some? && parsed.value.Ok? ==> data == Some(parsed.value.value))
              && (parsed.None? ==> data == if defaultDays != 0 then Some((daysBefore(today, defaultDays), today)) else None)
    {
      if |valuelist| > 0 {
        var s := Split(valuelist[0], ':');
        if |s| == 2 {
          var a := ParseDate(s[0]);
          var b := ParseDate(s[1]);
          if a.None? || b.None? {
            return Err(BadDate);
          }
          data := Some((a.value, b.value));
          return Ok(());
        }
      }
      if defaultDays != 0 {
        data := Some((daysBefore(today, defaultDays), today));
      } else {
        data := None;
      }
      r := Ok(());
    }

    /** The two dates joined by ":", or nothing. */
    function Value(): (r: string)
      reads this
      requires data.Some? ==> InRange(data.value.0) && InRange(data.value.1)
      ensures r == "" <==> data.None?
    {
      if data.Some? then FormatDate(data.value.0) + ":" + FormatDate(data.value.1) else ""
    }

    /** A range of four-digit years reads back as itself. */
    lemma ValueRoundTrip()
      requires data.Some? && InRange(data.value.0) && InRange(data.value.1)
      requires data.value.0.year >= 1000 && data.value.1.year >= 1000
      ensures ParseDateRange(Value()) == Some(Ok(data.value))
    {
      var a := FormatDate(data.value.0);
      var b := FormatDate(data.value.1);
      NoColonInDate(data.value.0);
      NoColonInDate(data.value.1);
      assert Value() == Join([a, b], ":");
      SplitJoin([a, b], ':');
      DateRoundTrip(data.value.0);
      DateRoundTrip(data.value.1);
    }
  }

  // ---------------------------------------------------------------------
  // `component_names_to_ids`

  /** The ids of the components, in table order, whose name is among `names`. */
  function IdsNamed(components: seq<(int, string)>, names: seq<string>): (r: seq<int>)
    ensures forall x :: x in r <==> exists i :: 0 <= i < |components| && components[i].0 == x && components[i].1 in names
  {
    if |components| == 0 then []
    else
      var rest := IdsNamed(components[1..], names);
      assert forall i :: 0 < i < |components| ==> components[i] == components[1..][i - 1];
      if components[0].1 in names then [components[0].0] + rest else rest
  }

  /** Every named component contributes its id. */
  lemma IdsNamedHits(components: seq<(int, string)>, names: seq<string>)
    ensures forall i :: 0 <= i < |components| && components[i].1 in names ==> components[i].0 in IdsNamed(components, names)
  {
  }

  function StripAll(pieces: seq<string>): (r: seq<string>)
    ensures |r| == |pieces|
  {
    seq(|pieces|, i requires 0 <= i < |pieces| => Strip(pieces[i]))
  }

  /** The ids of the named components; nothing asked gives nothing, and a
      request that finds nothing, or whose first name is blank, gives the
      id -1 that no component has. */
  function ComponentNamesToIds(names: Option<string>, components: seq<(int, string)>): (r: seq<int>)
    ensures r == [] <==> names.None? || names.value == ""
    ensures names.Some? && names.value != "" && StripAll(Split(names.value, ','))[0] == "" ==> r == [-1]
  {
    if names.None? || names.value == "" then []
    else
      var pieces := StripAll(Split(names.value, ','));
      var ids := if |pieces| > 0 && pieces[0] != "" then IdsNamed(components, pieces) else [];
      if ids == [] then [-1] else ids
  }

  /** With ids that are never negative, -1 alone comes back exactly when
      names were asked and none of them (or a blank first one) was found;
      otherwise every id returned belongs to a named component. */
  lemma NamesToIdsSentinel(names: Option<string>, components: seq<(int, string)>)
    requires forall i :: 0 <= i < |components| ==> components[i].0 >= 0
    ensures var r := ComponentNamesToIds(names, components);
            var pieces := StripAll(Split(names.GetOr(""), ','));
            && (r == [-1] <==> && names.Some? && names.value != ""
                               && (pieces[0] == "" ||
                                   forall i :: 0 <= i < |components| ==> components[i].1 !in pieces))
            && (r != [-1] ==> forall x :: x in r ==>
                  exists i :: 0 <= i < |components| && components[i].0 == x && components[i].1 in pieces)
  {
    var r := ComponentNamesToIds(names, components);
    if names.Some? && names.value != "" {
      var pieces := StripAll(Split(names.value, ','));
      if pieces[0] != "" {
        var ids := IdsNamed(components, pieces);
        if ids != [] {
          assert ids[0] in ids;
          assert -1 !in ids;
        } else {
          IdsNamedHits(components, pieces);
        }
      }
    }
  }

  // ---------------------------------------------------------------------
  // `component_list`

  /** Python's ordering of strings: code point by code point, a prefix
      first. */
  predicate StrLess(a: string, b: string)
  {
    |b| > 0 && (|a| == 0 || a[0] < b[0] || (a[0] == b[0] && StrLess(a[1..], b[1..])))
  }

  lemma {:induction false} StrLessIrreflexive(a: string)
    ensures !StrLess(a, a)
  {
    if |a| > 0 {
      StrLessIrreflexive(a[1..]);
    }
  }

  lemma {:induction false} StrLessTrans(a: string, b: string, c: string)
    requires StrLess(a, b) && StrLess(b, c)
    ensures StrLess(a, c)
  {
    if |a| > 0 && a[0] == b[0] && b[0] == c[0] {
      StrLessTrans(a[1..], b[1..], c[1..]);
    }
  }

  lemma {:induction false} StrLessTotal(a: string, b: string)
    requires a != b
    ensures StrLess(a, b) || StrLess(b, a)
  {
    if |a| > 0 && |b| > 0 && a[0] == b[0] {
      assert a == [a[0]] + a[1..] && b == [b[0]] + b[1..];
      StrLessTotal(a[1..], b[1..]);
    }
  }

  /** An entry of the component list: the ids joined by "," and the name. */
  type Entry = (string, string)

  predicate SortedByName(s: seq<Entry>)
  {
    forall i, j :: 0 <= i < j < |s| ==> StrLess(s[i].1, s[j].1)
  }

  /** `x` placed among sorted entries of other names. */
  function InsertByName(x: Entry, s: seq<Entry>): (r: seq<Entry>)
    requires SortedByName(s) && forall i :: 0 <= i < |s| ==> s[i].1 != x.1
    ensures SortedByName(r)
    ensures |r| == |s| + 1
    ensures forall e :: e in r <==> e == x || e in s
  {
    if |s| == 0 then [x]
    else if StrLess(x.1, s[0].1) then
      var r := [x] + s;
      forall i, j | 0 <= i < j < |r| ensures StrLess(r[i].1, r[j].1) {
        if i == 0 && j > 1 {
          StrLessTrans(x.1, s[0].1, s[j - 1].1);
        }
      }
      r
    else
      StrLessTotal(x.1, s[0].1);
      var rest := InsertByName(x, s[1..]);
      var r := [s[0]] + rest;
      forall j | 0 <= j < |rest| ensures StrLess(s[0].1, rest[j].1) {
        assert rest[j] in rest;
        if rest[j] != x {
          var k :| 0 <= k < |s[1..]| && s[1..][k] == rest[j];
          assert s[k + 1] == rest[j];
        }
      }
      forall i, j | 0 <= i < j < |r| ensures StrLess(r[i].1, r[j].1) {
        assert r[j] == rest[j - 1];
        if i > 0 {
          assert r[i] == rest[i - 1];
        }
      }
      assert s == [s[0]] + s[1..];
      r
  }

  /** The ids of the components named `name`, in table order. */
  function IdsOf(comps: seq<(int, string)>, name: string): seq<int>
  {
    if |comps| == 0 then []
    else IdsOf(comps[..|comps| - 1], name) + if comps[|comps| - 1].1 == name then [comps[|comps| - 1].0] else []
  }

  function JoinIds(ids: seq<int>): string
  {
    Join(seq(|ids|, i requires 0 <= i < |ids| => IntToString(ids[i])), ",")
  }

  function NamesOf(comps: seq<(int, string)>): set<string>
  {
    set i | 0 <= i < |comps| :: comps[i].1
  }

  lemma NamesOfStep(comps: seq<(int, string)>, i: nat)
    requires i < |comps|
    ensures NamesOf(comps[..i + 1]) == NamesOf(comps[..i]) + {comps[i].1}
  {
    var a, b := comps[..i], comps[..i + 1];
    forall n | n in NamesOf(b) ensures n in NamesOf(a) + {comps[i].1} {
      var k :| 0 <= k < i + 1 && b[k].1 == n;
      if k < i {
        assert a[k].1 == n;
      }
    }
    forall n | n in NamesOf(a) ensures n in NamesOf(b) {
      var k :| 0 <= k < i && a[k].1 == n;
      assert b[k].1 == n;
    }
    assert b[i] == comps[i];
  }

  /** The `defaultdict(list)` of the ids of each component name. */
  method GroupByName(comps: seq<(int, string)>) returns (merged: map<string, seq<int>>)
    ensures merged.Keys == NamesOf(comps)
    ensures forall name :: name in merged ==> merged[name] == IdsOf(comps, name)
  {
    merged := map[];
    for i := 0 to |comps|
      invariant merged.Keys == NamesOf(comps[..i])
      invariant forall name :: name in merged ==> merged[name] == IdsOf(comps[..i], name)
    {
      assert comps[..i + 1][..i] == comps[..i];
      NamesOfStep(comps, i);
      var (iden, name) := comps[i];
      var ids := if name in merged then merged[name] else [];
      assert name !in merged ==> IdsOf(comps[..i], name) == [] by {
        if name !in merged {
          IdsOfAbsent(comps[..i], name);
        }
      }
      merged := merged[name := ids + [iden]];
    }
    assert comps[..|comps|] == comps;
  }

  lemma {:induction false} IdsOfAbsent(comps: seq<(int, string)>, name: string)
    requires name !in NamesOf(comps)
    ensures IdsOf(comps, name) == []
  {
    if |comps| > 0 {
      var init := comps[..|comps| - 1];
      assert NamesOf(init) <= NamesOf(comps) by {
        forall n | n in NamesOf(init) ensures n in NamesOf(comps) {
          var k :| 0 <= k < |init| && init[k].1 == n;
          assert comps[k].1 == n;
        }
      }
      IdsOfAbsent(init, name);
      assert comps[|comps| - 1].1 in NamesOf(comps);
    }
  }

  function NamesIn(r: seq<Entry>): set<string>
  {
    set i | 0 <= i < |r| :: r[i].1
  }

  lemma InsertNames(x: Entry, s: seq<Entry>)
    requires SortedByName(s) && forall i :: 0 <= i < |s| ==> s[i].1 != x.1
    ensures NamesIn(InsertByName(x, s)) == NamesIn(s) + {x.1}
  {
    var r := InsertByName(x, s);
    forall n | n in NamesIn(r) ensures n in NamesIn(s) + {x.1} {
      var i :| 0 <= i < |r| && r[i].1 == n;
      assert r[i] in r;
      if r[i] != x {
        var k :| 0 <= k < |s| && s[k] == r[i];
      }
    }
    forall n | n in NamesIn(s) + {x.1} ensures n in NamesIn(r) {
      if n == x.1 {
        assert x in r;
        var i :| 0 <= i < |r| && r[i] == x;
      } else {
        var k :| 0 <= k < |s| && s[k].1 == n;
        assert s[k] in r;
        var i :| 0 <= i < |r| && r[i] == s[k];
      }
    }
  }

  /** The entries of the groups, sorted by name. */
  method SortedEntries(merged: map<string, seq<int>>) returns (r: seq<Entry>)
    ensures SortedByName(r)
    ensures NamesIn(r) == merged.Keys
    ensures forall i :: 0 <= i < |r| ==> r[i].1 in merged && r[i].0 == JoinIds(merged[r[i].1])
  {
    var pending := merged.Keys;
    r := [];
    while pending != {}
      invariant pending <= merged.Keys
      invariant SortedByName(r)
      invariant NamesIn(r) == merged.Keys - pending
      invariant forall i :: 0 <= i < |r| ==> r[i].1 in merged && r[i].0 == JoinIds(merged[r[i].1])
      decreases pending
    {
      var name :| name in pending;
      var x := (JoinIds(merged[name]), name);
      assert forall i :: 0 <= i < |r| ==> r[i].1 != name by {
        forall i | 0 <= i < |r| ensures r[i].1 != name {
          assert r[i].1 in NamesIn(r);
        }
      }
      InsertNames(x, r);
      var r' := InsertByName(x, r);
      forall i | 0 <= i < |r'| ensures r'[i].1 in merged && r'[i].0 == JoinIds(merged[r'[i].1]) {
        assert r'[i] in r';
        if r'[i] != x {
          var k :| 0 <= k < |r| && r[k] == r'[i];
        }
      }
      r := r';
      pending := pending - {name};
    }
  }

  /** `component_list`: one entry per component name, sorted by name, each
      holding the ids of the components of that name, in table order,
      joined by ",". */
  method ComponentList(comps: seq<(int, string)>) returns (r: seq<Entry>)
    ensures SortedByName(r)
    ensures NamesIn(r) == NamesOf(comps)
    ensures forall i :: 0 <= i < |r| ==> r[i].0 == JoinIds(IdsOf(comps, r[i].1))
  {
    var merged := GroupByName(comps);
    r := SortedEntries(merged);
  }
}

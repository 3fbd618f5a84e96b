/** The Python string operations the modelled code uses: `split`, `join`,
    `strip`, `lower`, `in`, `replace`, `str(int)`, `int(str)` and the two
    regular expressions `[\w\.]+` (all matches) and `id=(\d+)` (first match).
    Letters, case mapping and the digits of `int()` and `id=(\d+)` are ASCII
    here; the decimal digits `strptime` reads are those of Unicode. */
module Text {
  import opened Wrappers

  // ---------------------------------------------------------------------
  // Joining and splitting

  /** `sep.join(parts)` */
  function Join(parts: seq<string>, sep: string): string
  {
    if |parts| == 0 then ""
    else if |parts| == 1 then parts[0]
    else parts[0] + sep + Join(parts[1..], sep)
  }

  /** `s.split(sep)` for a one-character separator: never empty, no piece
      holds the separator, and joining the pieces gives `s` back. */
  function Split(s: string, sep: char): (parts: seq<string>)
    ensures |parts| >= 1
    ensures forall i :: 0 <= i < |parts| ==> sep !in parts[i]
    ensures Join(parts, [sep]) == s
  {
    if |s| == 0 then [""]
    else
      var rest := Split(s[1..], sep);
      if s[0] == sep then
        assert ([""] + rest)[1..] == rest;
        [""] + rest
      else
        var parts := [[s[0]] + rest[0]] + rest[1..];
        assert parts[1..] == rest[1..];
        assert |rest| > 1 ==> Join(rest, [sep]) == rest[0] + [sep] + Join(rest[1..], [sep]);
        assert s == [s[0]] + s[1..];
        parts
  }

  /** Splitting `a + b` where `a` holds no separator glues `a` onto the
      first piece of `b`. */
  lemma {:induction false} SplitPrefix(a: string, b: string, sep: char)
    requires sep !in a
    ensures Split(a + b, sep) == [a + Split(b, sep)[0]] + Split(b, sep)[1..]
  {
    var sb := Split(b, sep);
    if |a| > 0 {
      assert a[0] in a;
      assert forall c :: c in a[1..] ==> c in a;
      SplitPrefix(a[1..], b, sep);
      var st := Split(a[1..] + b, sep);
      assert ([a[1..] + sb[0]] + sb[1..])[1..] == sb[1..];
      assert st[0] == a[1..] + sb[0] && st[1..] == sb[1..];
      assert a + b == [a[0]] + (a[1..] + b);
      SplitCons(a[0], a[1..] + b, sep);
      assert [a[0]] + (a[1..] + sb[0]) == a + sb[0];
    } else {
      assert a + b == b && a + sb[0] == sb[0];
      assert sb == [sb[0]] + sb[1..];
    }
  }

  /** A character other than the separator joins the first piece. */
  lemma SplitCons(c: char, t: string, sep: char)
    requires c != sep
    ensures Split([c] + t, sep) == [[c] + Split(t, sep)[0]] + Split(t, sep)[1..]
  {
    assert ([c] + t)[1..] == t;
  }

  /** Splitting undoes joining when no piece holds the separator. */
  lemma {:induction false} SplitJoin(parts: seq<string>, sep: char)
    requires |parts| >= 1
    requires forall i :: 0 <= i < |parts| ==> sep !in parts[i]
    ensures Split(Join(parts, [sep]), sep) == parts
  {
    if |parts| == 1 {
      SplitPrefix(parts[0], "", sep);
      assert parts[0] + "" == parts[0];
    } else {
      var rest := Join(parts[1..], [sep]);
      assert forall i :: 0 <= i < |parts| - 1 ==> parts[1..][i] == parts[i + 1];
      SplitJoin(parts[1..], sep);
      SplitAfterSep(rest, sep);
      assert Join(parts, [sep]) == parts[0] + ([sep] + rest);
      SplitPrefix(parts[0], [sep] + rest, sep);
      assert parts[0] + "" == parts[0];
      assert [parts[0]] + parts[1..] == parts;
    }
  }

  /** Three pieces without the separator, joined by it, split back into themselves. */
  lemma SplitThree(a: string, b: string, c: string, sep: char)
    requires sep !in a && sep !in b && sep !in c
    ensures Split(a + [sep] + b + [sep] + c, sep) == [a, b, c]
  {
    var parts := [a, b, c];
    assert parts[1..] == [b, c] && [b, c][1..] == [c];
    assert Join([b, c], [sep]) == b + [sep] + c;
    assert a + [sep] + b + [sep] + c == Join(parts, [sep]);
    SplitJoin(parts, sep);
  }

  /** A leading separator splits off an empty first piece. */
  lemma SplitAfterSep(rest: string, sep: char)
    ensures Split([sep] + rest, sep) == [""] + Split(rest, sep)
  {
    assert ([sep] + rest)[1..] == rest;
  }

  // ---------------------------------------------------------------------
  // Whitespace and case

  /** The code points, as inclusive ranges, that Python's `str.strip()` and
      `int()` treat as white space. */
  const SpaceRanges: seq<(int, int)> :=
    [(0x20, 0x20), (0x09, 0x0D), (0x1C, 0x1F), (0x85, 0x85), (0xA0, 0xA0), (0x1680, 0x1680),
     (0x2000, 0x200A), (0x2028, 0x2029), (0x202F, 0x202F), (0x205F, 0x205F), (0x3000, 0x3000)]

  predicate InRanges(x: int, rs: seq<(int, int)>)
  {
    |rs| > 0 && (rs[0].0 <= x <= rs[0].1 || InRanges(x, rs[1..]))
  }

  predicate IsSpace(c: char)
  {
    InRanges(c as int, SpaceRanges)
  }

  lemma {:induction false} OutsideRanges(x: int, rs: seq<(int, int)>)
    requires forall r :: r in rs ==> x < r.0 || r.1 < x
    ensures !InRanges(x, rs)
  {
    if |rs| > 0 {
      assert rs[0] in rs;
      OutsideRanges(x, rs[1..]);
    }
  }

  /** No visible ASCII character is white space. */
  lemma VisibleNotSpace(c: char)
    requires '!' <= c <= '~'
    ensures !IsSpace(c)
  {
    OutsideRanges(c as int, SpaceRanges);
  }

  /** The first position from `i` on that is not white space. */
  function SpanStart(s: string, i: nat): (n: nat)
    requires i <= |s|
    ensures i <= n <= |s|
    ensures forall k :: i <= k < n ==> IsSpace(s[k])
    ensures n < |s| ==> !IsSpace(s[n])
    decreases |s| - i
  {
    if i < |s| && IsSpace(s[i]) then SpanStart(s, i + 1) else i
  }

  /** The smallest end, down from `j` but not below `lo`, after which only
      white space follows up to `j`. */
  function SpanEnd(s: string, lo: nat, j: nat): (n: nat)
    requires lo <= j <= |s|
    ensures lo <= n <= j
    ensures forall k :: n <= k < j ==> IsSpace(s[k])
    ensures n > lo ==> !IsSpace(s[n - 1])
  {
    if j > lo && IsSpace(s[j - 1]) then SpanEnd(s, lo, j - 1) else j
  }

  predicate IsStripped(s: string)
  {
    s == [] || (!IsSpace(s[0]) && !IsSpace(s[|s| - 1]))
  }

  /** Where `s.strip()` starts inside `s`. */
  function StripOffset(s: string): nat
  {
    SpanStart(s, 0)
  }

  /** `s.strip()`: a slice of `s` that neither starts nor ends with white
      space, cut out of `s` by removing white space only. */
  function Strip(s: string): (r: string)
    ensures IsStripped(r)
    ensures StripOffset(s) + |r| <= |s| && r == s[StripOffset(s)..StripOffset(s) + |r|]
    ensures forall k :: 0 <= k < StripOffset(s) ==> IsSpace(s[k])
    ensures forall k :: StripOffset(s) + |r| <= k < |s| ==> IsSpace(s[k])
  {
    var a := SpanStart(s, 0);
    s[a..SpanEnd(s, a, |s|)]
  }

  /** A stripped string is its own strip. */
  lemma StrippedIsFixpoint(s: string)
    requires IsStripped(s)
    ensures Strip(s) == s
  {
  }

  /** Stripping twice is stripping once. */
  lemma StripIdempotent(s: string)
    ensures Strip(Strip(s)) == Strip(s)
  {
    StrippedIsFixpoint(Strip(s));
  }

  function LowerChar(c: char): char
  {
    if 'A' <= c <= 'Z' then (c as int + 32) as char else c
  }

  /** `s.lower()` on ASCII letters. */
  function Lower(s: string): (r: string)
    ensures |r| == |s|
  {
    seq(|s|, i requires 0 <= i < |s| => LowerChar(s[i]))
  }

  // ---------------------------------------------------------------------
  // Substrings

  predicate StartsWith(s: string, prefix: string)
  {
    |prefix| <= |s| && s[..|prefix|] == prefix
  }

  /** Python's `sub in s`. */
  predicate Contains(s: string, sub: string)
    decreases |s|
  {
    StartsWith(s, sub) || (|s| > 0 && Contains(s[1..], sub))
  }

  /** `sub` occurs in `s` at position `i`. */
  predicate OccursAt(s: string, sub: string, i: int)
  {
    0 <= i <= |s| - |sub| && s[i..i + |sub|] == sub
  }

  /** `Contains` holds exactly when `sub` occurs at some position of `s`. */
  lemma {:induction false} ContainsAt(s: string, sub: string)
    ensures Contains(s, sub) <==> exists i :: OccursAt(s, sub, i)
    decreases |s|
  {
    if StartsWith(s, sub) {
      assert OccursAt(s, sub, 0);
    }
    if |s| > 0 {
      ContainsAt(s[1..], sub);
      if exists i :: OccursAt(s, sub, i) {
        var i :| OccursAt(s, sub, i);
        if i > 0 {
          assert s[1..][i - 1..i - 1 + |sub|] == sub;
          assert OccursAt(s[1..], sub, i - 1);
        }
      }
      if Contains(s[1..], sub) {
        var i :| OccursAt(s[1..], sub, i);
        assert s[i + 1..i + 1 + |sub|] == sub;
        assert OccursAt(s, sub, i + 1);
      }
    } else {
      if exists i :: OccursAt(s, sub, i) {
        var i :| OccursAt(s, sub, i);
        assert s[..|sub|] == sub;
      }
    }
  }

  /** `s.replace(pat, rep)`: replaces the non-overlapping occurrences of
      `pat`, scanning from the left. */
  function ReplaceAll(s: string, pat: string, rep: string): string
    requires |pat| > 0
    decreases |s|
  {
    if |s| == 0 then ""
    else if StartsWith(s, pat) then rep + ReplaceAll(s[|pat|..], pat, rep)
    else [s[0]] + ReplaceAll(s[1..], pat, rep)
  }

  /** Replacing a pattern that does not occur changes nothing. */
  lemma {:induction false} ReplaceAbsent(s: string, pat: string, rep: string)
    requires |pat| > 0 && !Contains(s, pat)
    ensures ReplaceAll(s, pat, rep) == s
    decreases |s|
  {
    if |s| > 0 {
      ReplaceAbsent(s[1..], pat, rep);
      assert s == [s[0]] + s[1..];
    }
  }

  lemma {:induction false} ReplaceAfterPlain(a: string, b: string, pat: string, rep: string)
    requires |pat| > 0 && pat[0] !in a
    ensures ReplaceAll(a + b, pat, rep) == a + ReplaceAll(b, pat, rep)
    decreases |a|
  {
    if |a| > 0 {
      assert (a + b)[0] == a[0];
      assert !StartsWith(a + b, pat);
      assert (a + b)[1..] == a[1..] + b;
      ReplaceAfterPlain(a[1..], b, pat, rep);
      assert a == [a[0]] + a[1..];
    } else {
      assert a + b == b;
    }
  }

  /** A template written as pieces joined by `pat`, whose pieces never hold
      the first character of `pat`, has every `pat` replaced by `rep`. */
  lemma {:induction false} ReplaceJoin(pieces: seq<string>, pat: string, rep: string)
    requires |pat| > 0
    requires forall i :: 0 <= i < |pieces| ==> pat[0] !in pieces[i]
    ensures ReplaceAll(Join(pieces, pat), pat, rep) == Join(pieces, rep)
  {
    if |pieces| == 1 {
      ReplaceAfterPlain(pieces[0], "", pat, rep);
      assert pieces[0] + "" == pieces[0];
    } else if |pieces| > 1 {
      var tail := Join(pieces[1..], pat);
      ReplaceJoin(pieces[1..], pat, rep);
      assert pieces[0] + pat + tail == pieces[0] + (pat + tail);
      ReplaceAfterPlain(pieces[0], pat + tail, pat, rep);
      assert StartsWith(pat + tail, pat);
      assert (pat + tail)[|pat|..] == tail;
    }
  }

  // ---------------------------------------------------------------------
  // Integers

  predicate IsDigit(c: char)
  {
    '0' <= c <= '9'
  }

  predicate AllDigits(s: string)
  {
    forall i :: 0 <= i < |s| ==> IsDigit(s[i])
  }

  /** The value of a string of decimal digits. */
  function DigitsValue(s: string): nat
    requires AllDigits(s)
  {
    if |s| == 0 then 0
    else DigitsValue(s[..|s| - 1]) * 10 + (s[|s| - 1] as int - '0' as int)
  }

  function DigitChar(d: nat): (c: char)
    requires d < 10
    ensures IsDigit(c) && c as int - '0' as int == d
  {
    (d + '0' as int) as char
  }

  /** The digit zero of each run of ten Unicode decimal digits (general
      category Nd, Unicode 15.0), in code point order. Each run holds the
      digits 0 to 9 in order, and these are exactly what `\d` matches in a
      `str` pattern and what `int()` converts. */
  const DecimalZeros: seq<int> :=
    [0x30, 0x660, 0x6F0, 0x7C0, 0x966, 0x9E6, 0xA66, 0xAE6] +
    [0xB66, 0xBE6, 0xC66, 0xCE6, 0xD66, 0xDE6, 0xE50, 0xED0] +
    [0xF20, 0x1040, 0x1090, 0x17E0, 0x1810, 0x1946, 0x19D0, 0x1A80] +
    [0x1A90, 0x1B50, 0x1BB0, 0x1C40, 0x1C50, 0xA620, 0xA8D0, 0xA900] +
    [0xA9D0, 0xA9F0, 0xAA50, 0xABF0, 0xFF10, 0x104A0, 0x10D30, 0x11066] +
    [0x110F0, 0x11136, 0x111D0, 0x112F0, 0x11450, 0x114D0, 0x11650, 0x116C0] +
    [0x11730, 0x118E0, 0x11950, 0x11C50, 0x11D50, 0x11DA0, 0x11F50, 0x16A60] +
    [0x16AC0, 0x16B50, 0x1D7CE, 0x1D7D8, 0x1D7E2, 0x1D7EC, 0x1D7F6, 0x1E140] +
    [0x1E2F0, 0x1E4F0, 0x1E950, 0x1FBF0]

  /** The value of code point `c` in the run of ten digits starting at one of `zeros`. */
  function DecimalIn(c: int, zeros: seq<int>): (r: Option<nat>)
    ensures r.Some? <==> exists i :: 0 <= i < |zeros| && zeros[i] <= c < zeros[i] + 10
    ensures r.Some? ==> r.value < 10 && c - r.value in zeros
  {
    if |zeros| == 0 then None
    else if zeros[0] <= c < zeros[0] + 10 then Some(c - zeros[0])
    else
      var r := DecimalIn(c, zeros[1..]);
      assert forall i :: 0 < i < |zeros| ==> zeros[i] == zeros[1..][i - 1];
      r
  }

  /** A code point in the first run that holds it has its offset in that run as its value. */
  lemma {:induction false} DecimalAt(c: int, zeros: seq<int>, i: nat)
    requires i < |zeros| && zeros[i] <= c < zeros[i] + 10
    requires forall j :: 0 <= j < i ==> !(zeros[j] <= c < zeros[j] + 10)
    ensures DecimalIn(c, zeros) == Some(c - zeros[i])
  {
    if i > 0 {
      DecimalAt(c, zeros[1..], i - 1);
    }
  }

  /** The value of a Unicode decimal digit, or None for any other character. */
  function DecimalOf(c: char): (r: Option<nat>)
    ensures r.Some? ==> r.value < 10 && c as int - r.value in DecimalZeros
    ensures IsDigit(c) ==> r == Some(c as int - '0' as int)
  {
    assert DecimalZeros[0] == '0' as int;
    DecimalIn(c as int, DecimalZeros)
  }

  predicate AllDecimal(s: string)
  {
    forall i :: 0 <= i < |s| ==> DecimalOf(s[i]).Some?
  }

  /** `int(s)` of a string of Unicode decimal digits. */
  function DecimalsValue(s: string): nat
    requires AllDecimal(s)
  {
    if |s| == 0 then 0
    else DecimalsValue(s[..|s| - 1]) * 10 + DecimalOf(s[|s| - 1]).value
  }

  /** One more decimal digit after `s`. */
  lemma DecimalsSnoc(s: string, c: char)
    requires AllDecimal(s) && DecimalOf(c).Some?
    ensures AllDecimal(s + [c]) && DecimalsValue(s + [c]) == DecimalsValue(s) * 10 + DecimalOf(c).value
  {
    assert (s + [c])[..|s|] == s;
  }

  /** Four decimal digits, as `int()` reads them. */
  lemma FourDecimals(d1: char, d2: char, d3: char, d4: char)
    requires DecimalOf(d1).Some? && DecimalOf(d2).Some? && DecimalOf(d3).Some? && DecimalOf(d4).Some?
    ensures AllDecimal([d1, d2, d3, d4])
    ensures DecimalsValue([d1, d2, d3, d4]) ==
              1000 * DecimalOf(d1).value + 100 * DecimalOf(d2).value + 10 * DecimalOf(d3).value + DecimalOf(d4).value
  {
    DecimalsSnoc([], d1);
    assert [] + [d1] == [d1];
    DecimalsSnoc([d1], d2);
    assert [d1] + [d2] == [d1, d2];
    DecimalsSnoc([d1, d2], d3);
    assert [d1, d2] + [d3] == [d1, d2, d3];
    DecimalsSnoc([d1, d2, d3], d4);
    assert [d1, d2, d3] + [d4] == [d1, d2, d3, d4];
  }

  /** ASCII digits are decimal digits of the same value. */
  lemma {:induction false} DecimalsOfDigits(s: string)
    requires AllDigits(s)
    ensures AllDecimal(s) && DecimalsValue(s) == DigitsValue(s)
  {
    if |s| > 0 {
      DecimalsOfDigits(s[..|s| - 1]);
    }
  }

  /** `str(n)` for n >= 0: digits only, no leading zero, value n. */
  function NatToString(n: nat): (r: string)
    ensures |r| >= 1 && AllDigits(r) && DigitsValue(r) == n
    ensures r[0] != '0' || n == 0
  {
    if n < 10 then [DigitChar(n)]
    else
      var r := NatToString(n / 10) + [DigitChar(n % 10)];
      assert r[..|r| - 1] == NatToString(n / 10);
      r
  }

  /** `str(i)` */
  function IntToString(i: int): string
  {
    if i < 0 then "-" + NatToString(-i) else NatToString(i)
  }

  /** The digit groups Python's `int()` accepts: ASCII digits, single
      underscores only between two digits. */
  predicate IsDigitGroups(s: string)
  {
    && |s| > 0 && IsDigit(s[0]) && IsDigit(s[|s| - 1])
    && (forall i :: 0 <= i < |s| ==> IsDigit(s[i]) || s[i] == '_')
    && (forall i :: 0 <= i < |s| - 1 ==> !(s[i] == '_' && s[i + 1] == '_'))
  }

  function RemoveUnderscores(s: string): (r: string)
    requires forall i :: 0 <= i < |s| ==> IsDigit(s[i]) || s[i] == '_'
    ensures AllDigits(r)
  {
    if |s| == 0 then ""
    else if s[0] == '_' then RemoveUnderscores(s[1..])
    else [s[0]] + RemoveUnderscores(s[1..])
  }

  lemma {:induction false} RemoveUnderscoresOfDigits(s: string)
    requires AllDigits(s)
    ensures RemoveUnderscores(s) == s
  {
    if |s| > 0 {
      RemoveUnderscoresOfDigits(s[1..]);
      assert s == [s[0]] + s[1..];
    }
  }

  /** Python's `int(s)`: surrounding white space, an optional sign, then
      digit groups; anything else is a `ValueError` (`None`). */
  function ParseInt(s: string): Option<int>
  {
    var t := Strip(s);
    if |t| > 0 && (t[0] == '+' || t[0] == '-') then
      var body := t[1..];
      if IsDigitGroups(body) then
        var n: int := DigitsValue(RemoveUnderscores(body));
        Some(if t[0] == '-' then -n else n)
      else None
    else if IsDigitGroups(t) then Some(DigitsValue(RemoveUnderscores(t)))
    else None
  }

  /** `int(str(i)) == i` */
  lemma IntRoundTrip(i: int)
    ensures ParseInt(IntToString(i)) == Some(i)
  {
    var s := IntToString(i);
    var digits := NatToString(if i < 0 then -i else i);
    VisibleNotSpace(s[0]);
    VisibleNotSpace(s[|s| - 1]);
    StrippedIsFixpoint(s);
    RemoveUnderscoresOfDigits(digits);
    if i < 0 {
      assert s[1..] == digits;
    }
  }

  /** The longest prefix of `s` made of digits. */
  function DigitRun(s: string): (r: string)
    ensures AllDigits(r) && |r| <= |s| && r == s[..|r|]
    ensures |r| < |s| ==> !IsDigit(s[|r|])
  {
    if |s| > 0 && IsDigit(s[0]) then
      var r := [s[0]] + DigitRun(s[1..]);
      assert s == [s[0]] + s[1..];
      r
    else ""
  }

  /** `re.search(r"id=(\d+)", s).group(1)`: the digits after the leftmost
      "id=" that is followed by at least one digit, or `None`. */
  function SearchIdNumber(s: string): (r: Option<string>)
    ensures r.Some? ==> |r.value| > 0 && AllDigits(r.value)
    decreases |s|
  {
    if |s| == 0 then None
    else if StartsWith(s, "id=") && |s| > 3 && IsDigit(s[3]) then Some(DigitRun(s[3..]))
    else SearchIdNumber(s[1..])
  }

  // ---------------------------------------------------------------------
  // Tokens of `[\w\.]+`

  predicate IsWordChar(c: char)
  {
    'a' <= c <= 'z' || 'A' <= c <= 'Z' || IsDigit(c) || c == '_'
  }

  predicate IsTokenChar(c: char)
  {
    IsWordChar(c) || c == '.'
  }

  predicate IsToken(t: string)
  {
    |t| > 0 && forall i :: 0 <= i < |t| ==> IsTokenChar(t[i])
  }

  /** The length of the run of token characters that starts `s`. */
  function TokenRun(s: string): (n: nat)
    ensures n <= |s|
    ensures forall k :: 0 <= k < n ==> IsTokenChar(s[k])
    ensures n < |s| ==> !IsTokenChar(s[n])
  {
    if |s| > 0 && IsTokenChar(s[0]) then 1 + TokenRun(s[1..]) else 0
  }

  /** `re.findall(r"[\w\.]+", s)`: the maximal runs of token characters, in order. */
  function FindTokens(s: string): (r: seq<string>)
    ensures forall i :: 0 <= i < |r| ==> IsToken(r[i])
    decreases |s|
  {
    if |s| == 0 then []
    else if !IsTokenChar(s[0]) then FindTokens(s[1..])
    else
      var n := TokenRun(s);
      [s[..n]] + FindTokens(s[n..])
  }

  lemma {:induction false} FindTokensSkip(a: string, b: string)
    requires forall i :: 0 <= i < |a| ==> !IsTokenChar(a[i])
    ensures FindTokens(a + b) == FindTokens(b)
    decreases |a|
  {
    if |a| > 0 {
      assert (a + b)[1..] == a[1..] + b;
      FindTokensSkip(a[1..], b);
    } else {
      assert a + b == b;
    }
  }

  lemma {:induction false} TokenRunOf(t: string, b: string)
    requires forall i :: 0 <= i < |t| ==> IsTokenChar(t[i])
    requires |b| == 0 || !IsTokenChar(b[0])
    ensures TokenRun(t + b) == |t|
    decreases |t|
  {
    if |t| > 0 {
      assert (t + b)[1..] == t[1..] + b;
      TokenRunOf(t[1..], b);
    } else {
      assert t + b == b;
    }
  }

  /** Tokens written out with a separator that holds no token character are
      found again, in order. */
  lemma {:induction false} FindTokensOfJoin(ts: seq<string>, sep: string)
    requires |sep| > 0 && forall i :: 0 <= i < |sep| ==> !IsTokenChar(sep[i])
    requires forall i :: 0 <= i < |ts| ==> IsToken(ts[i])
    ensures FindTokens(Join(ts, sep)) == ts
  {
    if |ts| == 1 {
      TokenRunOf(ts[0], "");
      assert ts[0] + "" == ts[0];
      assert ts[0][|ts[0]|..] == "";
    } else if |ts| > 1 {
      var rest := Join(ts[1..], sep);
      var s := ts[0] + sep + rest;
      assert s == ts[0] + (sep + rest);
      TokenRunOf(ts[0], sep + rest);
      assert s[..|ts[0]|] == ts[0];
      assert s[|ts[0]|..] == sep + rest;
      FindTokensSkip(sep, rest);
      FindTokensOfJoin(ts[1..], sep);
      assert ts == [ts[0]] + ts[1..];
    }
  }
}

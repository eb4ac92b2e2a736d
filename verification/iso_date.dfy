/**
 * The date pattern `\d{4}年\d{1,2}月\d{1,2}日` shared by `to_iso` (anchored
 * at the start of the text, `re.match`) and `find_kidate` (first match
 * anywhere, `re.findall(...)[0]`), and the `YYYY-MM-DD` formatting of
 * `to_iso`. Digits are ASCII digits.
 */
module IsoDate {
  import opened Strings

  /** The three groups of a match and the length of the matched text. */
  datatype DateParts = DateParts(year: string, month: string, day: string, len: nat)

  /**
   * `\d{1,2}` followed by `stop`, starting at `from`: the number of digits
   * matched. Two digits are tried first, as the greedy regex does.
   */
  function DigitsBefore(s: string, from: nat, stop: char): Option<nat>
  {
    if from + 2 < |s| && IsDigit(s[from]) && IsDigit(s[from + 1]) && s[from + 2] == stop then Some(2)
    else if from + 1 < |s| && IsDigit(s[from]) && s[from + 1] == stop then Some(1)
    else None
  }

  /** `re.match` of the date pattern: a match at the very start of `s`, if any. */
  function MatchDate(s: string): (m: Option<DateParts>)
    ensures m.Some? ==> 9 <= m.value.len <= 11 && m.value.len <= |s|
  {
    if 5 <= |s| && AllDigits(s[..4]) && s[4] == '年' then
      match DigitsBefore(s, 5, '月')
      case None => None
      case Some(ml) =>
        match DigitsBefore(s, 6 + ml, '日')
        case None => None
        case Some(dl) => Some(DateParts(s[..4], s[5..5 + ml], s[6 + ml..6 + ml + dl], 7 + ml + dl))
    else None
  }

  /** Python's `str.zfill(2)` on a run of digits. */
  function ZeroFill2(d: string): string
  {
    if |d| >= 2 then d else seq(2 - |d|, _ => '0') + d
  }

  /** `to_iso`: `YYYY年M月D日...` becomes `YYYY-MM-DD`; anything else becomes "". */
  function ToIso(s: string): string
  {
    match MatchDate(s)
    case None => ""
    case Some(p) => p.year + "-" + ZeroFill2(p.month) + "-" + ZeroFill2(p.day)
  }

  /**
   * The pattern stated declaratively: `s` starts with four digits, `年`,
   * `ml` digits, `月`, `dl` digits and `日`, where `ml` and `dl` are 1 or 2.
   */
  predicate DateAt(s: string, ml: int, dl: int)
  {
    (ml == 1 || ml == 2) && (dl == 1 || dl == 2) && 7 + ml + dl <= |s| &&
    AllDigits(s[..4]) && s[4] == '年' &&
    AllDigits(s[5..5 + ml]) && s[5 + ml] == '月' &&
    AllDigits(s[6 + ml..6 + ml + dl]) && s[6 + ml + dl] == '日'
  }

  predicate StartsWithDate(s: string)
  {
    DateAt(s, 1, 1) || DateAt(s, 1, 2) || DateAt(s, 2, 1) || DateAt(s, 2, 2)
  }

  /** A match exists exactly when the text starts with a date, and it has that date's shape. */
  lemma MatchDateSound(s: string)
    ensures MatchDate(s).Some? <==> StartsWithDate(s)
    ensures forall ml, dl :: DateAt(s, ml, dl) ==>
      MatchDate(s) == Some(DateParts(s[..4], s[5..5 + ml], s[6 + ml..6 + ml + dl], 7 + ml + dl))
  {
    if MatchDate(s).Some? {
      var ml := DigitsBefore(s, 5, '月').value;
      var dl := DigitsBefore(s, 6 + ml, '日').value;
      assert DateAt(s, ml, dl);
    }
  }

  /** `to_iso` yields a non-empty string exactly when the text starts with a date. */
  lemma ToIsoNonEmptyIff(s: string)
    ensures ToIso(s) != "" <==> StartsWithDate(s)
  {
    MatchDateSound(s);
  }

  lemma ZeroFill2Value(d: string)
    requires AllDigits(d) && 1 <= |d| <= 2
    ensures |ZeroFill2(d)| == 2 && AllDigits(ZeroFill2(d))
    ensures DecimalValue(ZeroFill2(d)) == DecimalValue(d)
  {
    if |d| == 1 {
      assert ZeroFill2(d) == ['0', d[0]];
      assert ZeroFill2(d)[..1] == ['0'];
      assert DecimalValue(['0']) == 0 by { assert ['0'][..0] == []; }
      assert d[..0] == [];
    }
  }

  /**
   * A non-empty `to_iso` result is `YYYY-MM-DD`: ten characters, the year
   * copied, and month and day as two digits each with the values written
   * in the text. No calendar check is made.
   */
  lemma ToIsoShape(s: string, ml: int, dl: int)
    requires DateAt(s, ml, dl)
    ensures var r := ToIso(s);
      |r| == 10 && r[..4] == s[..4] && r[4] == '-' && r[7] == '-' &&
      AllDigits(r[5..7]) && AllDigits(r[8..]) &&
      DecimalValue(r[5..7]) == DecimalValue(s[5..5 + ml]) &&
      DecimalValue(r[8..]) == DecimalValue(s[6 + ml..6 + ml + dl])
  {
    MatchDateSound(s);
    var m, d := s[5..5 + ml], s[6 + ml..6 + ml + dl];
    ZeroFill2Value(m);
    ZeroFill2Value(d);
    var r := ToIso(s);
    assert r == s[..4] + "-" + ZeroFill2(m) + "-" + ZeroFill2(d);
    assert r[5..7] == ZeroFill2(m);
    assert r[8..] == ZeroFill2(d);
  }

  /** A day past the end of the month goes through unchanged. */
  lemma ToIsoNoCalendarCheck()
    ensures ToIso("2024年2月30日") == "2024-02-30"
  {
    var s := "2024年2月30日";
    assert DateAt(s, 1, 2);
    MatchDateSound(s);
  }

  /** Only the matched prefix matters: text after the date is ignored. */
  lemma MatchDateIgnoresRest(s: string, s': string)
    requires MatchDate(s).Some?
    requires MatchDate(s).value.len <= |s'| && s'[..MatchDate(s).value.len] == s[..MatchDate(s).value.len]
    ensures MatchDate(s') == MatchDate(s)
  {
    MatchDateSound(s);
    var p := MatchDate(s).value;
    var ml, dl := |p.month|, |p.day|;
    assert DateAt(s, ml, dl);
    forall x | 0 <= x < p.len
      ensures s'[x] == s[x]
    {
      assert s'[..p.len][x] == s[..p.len][x];
    }
    assert s'[..4] == s[..4];
    assert s'[5..5 + ml] == s[5..5 + ml];
    assert s'[6 + ml..6 + ml + dl] == s[6 + ml..6 + ml + dl];
    assert DateAt(s', ml, dl);
    MatchDateSound(s');
  }

  /** `to_iso` ignores whatever follows a date. */
  lemma ToIsoIgnoresTrailingText(s: string, tail: string)
    requires ToIso(s) != ""
    ensures ToIso(s + tail) == ToIso(s)
  {
    var n := MatchDate(s).value.len;
    assert (s + tail)[..n] == s[..n];
    MatchDateIgnoresRest(s, s + tail);
  }

  /** `re.findall(pattern, s)[0]`: the text of the leftmost match in `s`, if any. */
  function SearchDate(s: string): Option<string>
    decreases |s|
  {
    match MatchDate(s)
    case Some(p) => Some(s[..p.len])
    case None => if s == [] then None else SearchDate(s[1..])
  }

  /** The match found starts at `i`, and no match starts earlier. */
  predicate LeftmostMatchAt(s: string, i: int)
  {
    0 <= i <= |s| && MatchDate(s[i..]).Some? &&
    forall j :: 0 <= j < i ==> MatchDate(s[j..]).None?
  }

  /** `SearchDate` finds nothing exactly when the pattern matches at no position. */
  lemma {:induction false} SearchDateNone(s: string)
    ensures SearchDate(s).None? <==> forall i :: 0 <= i <= |s| ==> MatchDate(s[i..]).None?
    decreases |s|
  {
    assert s[0..] == s;
    if MatchDate(s).None? && s != [] {
      SearchDateNone(s[1..]);
      if SearchDate(s).Some? {
        var i :| 0 <= i <= |s[1..]| && MatchDate(s[1..][i..]).Some?;
        assert s[1..][i..] == s[i + 1..];
      } else {
        forall i | 1 <= i <= |s|
          ensures MatchDate(s[i..]).None?
        {
          assert s[1..][i - 1..] == s[i..];
        }
      }
    }
  }

  /** Suffixes of the tail of `s` are suffixes of `s`. */
  lemma TailSuffix(s: string, j: nat)
    requires j < |s|
    ensures s[1..][j..] == s[j + 1..]
  {
  }

  /** `SearchDate` returns the text of the leftmost match. */
  lemma {:induction false} SearchDateLeftmost(s: string, i: int)
    requires LeftmostMatchAt(s, i)
    ensures SearchDate(s) == Some(s[i..i + MatchDate(s[i..]).value.len])
    decreases |s|
  {
    assert s[0..] == s;
    if i > 0 {
      assert MatchDate(s).None?;
      var t := s[1..];
      TailSuffix(s, i - 1);
      assert MatchDate(t[i - 1..]).Some?;
      forall j | 0 <= j < i - 1
        ensures MatchDate(t[j..]).None?
      {
        TailSuffix(s, j);
        assert MatchDate(s[j + 1..]).None?;
      }
      assert LeftmostMatchAt(t, i - 1);
      SearchDateLeftmost(t, i - 1);
      var n := MatchDate(s[i..]).value.len;
      assert t[i - 1..i - 1 + n] == s[i..i + n];
    }
  }

  /** The matched text is itself a date that `to_iso` accepts. */
  lemma SearchDateIsDate(s: string)
    requires SearchDate(s).Some?
    ensures StartsWithDate(SearchDate(s).value)
    ensures ToIso(SearchDate(s).value) != ""
    ensures 9 <= |SearchDate(s).value| <= 11
    decreases |s|
  {
    match MatchDate(s)
    case Some(p) =>
      var w := s[..p.len];
      assert w[..p.len] == s[..p.len];
      MatchDateIgnoresRest(s, w);
      MatchDateSound(w);
    case None =>
      SearchDateIsDate(s[1..]);
  }
}

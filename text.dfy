/**
 * The form-field helpers of the mission planner: JavaScript's `String.prototype.trim`,
 * the identifier test `/^[A-Za-z0-9_-]+$/.test(v)`, `parseInt(v, 10)` and the
 * HH:MM:SS to seconds conversion.
 */
module Text {
  import opened Wrappers

  /** The ECMAScript WhiteSpace and LineTerminator code points: what `trim` strips
      and what `parseInt` skips before the number. */
  predicate IsJsSpace(c: char) {
    || c == ' ' || c == '\t' || c == '\n' || c == '\U{B}' || c == '\U{C}' || c == '\r'
    || c == '\U{A0}' || c == '\U{1680}' || ('\U{2000}' <= c <= '\U{200A}')
    || c == '\U{2028}' || c == '\U{2029}' || c == '\U{202F}' || c == '\U{205F}'
    || c == '\U{3000}' || c == '\U{FEFF}'
  }

  /** Drops leading white space. */
  function TrimStart(s: string): string {
    if |s| > 0 && IsJsSpace(s[0]) then TrimStart(s[1..]) else s
  }

  /** Drops trailing white space. */
  function TrimEnd(s: string): string {
    if |s| > 0 && IsJsSpace(s[|s| - 1]) then TrimEnd(s[..|s| - 1]) else s
  }

  /** `TrimStart` removes exactly the leading white space: what it returns is a
      suffix of `s` that does not start with white space, and everything cut off
      is white space. */
  lemma {:induction false} TrimStartSpec(s: string)
    ensures var r := TrimStart(s);
            && |r| <= |s| && r == s[|s| - |r|..]
            && (forall k :: 0 <= k < |s| - |r| ==> IsJsSpace(s[k]))
            && (r == [] || !IsJsSpace(r[0]))
  {
    if |s| > 0 && IsJsSpace(s[0]) {
      TrimStartSpec(s[1..]);
    }
  }

  /** `TrimEnd` removes exactly the trailing white space. */
  lemma {:induction false} TrimEndSpec(s: string)
    ensures var r := TrimEnd(s);
            && |r| <= |s| && r == s[..|r|]
            && (forall k :: |r| <= k < |s| ==> IsJsSpace(s[k]))
            && (r == [] || !IsJsSpace(r[|r| - 1]))
  {
    if |s| > 0 && IsJsSpace(s[|s| - 1]) {
      TrimEndSpec(s[..|s| - 1]);
    }
  }

  /** `s.trim()` */
  function Trim(s: string): string {
    TrimEnd(TrimStart(s))
  }

  /** A string with no white space at either end is its own trim. */
  lemma TrimOfTrimmed(s: string)
    requires s == [] || (!IsJsSpace(s[0]) && !IsJsSpace(s[|s| - 1]))
    ensures Trim(s) == s
  {
  }

  /** Trimming is idempotent. */
  lemma {:induction false} TrimIdempotent(s: string)
    ensures Trim(Trim(s)) == Trim(s)
  {
    var t := Trim(s);
    var u := TrimStart(s);
    TrimStartSpec(s);
    TrimEndSpec(u);
    if t != [] {
      assert t[0] == u[0];
    }
    TrimOfTrimmed(t);
  }

  // ---------------------------------------------------------------------------
  // The identifier pattern ^[A-Za-z0-9_-]+$
  // ---------------------------------------------------------------------------

  /** One character of the class [A-Za-z0-9_-]. */
  predicate IsIdentChar(c: char) {
    ('A' <= c <= 'Z') || ('a' <= c <= 'z') || ('0' <= c <= '9') || c == '_' || c == '-'
  }

  /** The states of the matcher for ^[A-Za-z0-9_-]+$: nothing read yet, inside a
      run of class characters (the accepting state), or failed. */
  datatype MatchState = AtStart | InRun | Failed

  function Step(q: MatchState, c: char): MatchState {
    if q != Failed && IsIdentChar(c) then InRun else Failed
  }

  function Run(q: MatchState, v: string): MatchState
    decreases |v|
  {
    if v == [] then q else Run(Step(q, v[0]), v[1..])
  }

  /** `isValidText(v)`, i.e. `VALID_REGEX.test(v)`: the whole string is read by the
      matcher, which must end in its accepting state. */
  predicate IsValidText(v: string) {
    Run(AtStart, v) == InRun
  }

  lemma {:induction false} FailedIsFinal(v: string)
    ensures Run(Failed, v) == Failed
    decreases |v|
  {
    if v != [] {
      FailedIsFinal(v[1..]);
    }
  }

  lemma {:induction false} RunAccepts(q: MatchState, v: string)
    requires q != Failed
    ensures Run(q, v) == InRun <==>
              (q == InRun || |v| > 0) && forall k :: 0 <= k < |v| ==> IsIdentChar(v[k])
    decreases |v|
  {
    if v != [] {
      if IsIdentChar(v[0]) {
        RunAccepts(InRun, v[1..]);
        assert forall k :: 1 <= k < |v| ==> v[k] == v[1..][k - 1];
      } else {
        FailedIsFinal(v[1..]);
      }
    }
  }

  /** The pattern accepts exactly the non-empty strings over A-Z a-z 0-9 _ -. */
  lemma ValidTextMeans(v: string)
    ensures IsValidText(v) <==> |v| > 0 && forall k :: 0 <= k < |v| ==> IsIdentChar(v[k])
  {
    RunAccepts(AtStart, v);
  }

  /** A valid identifier has no white space, so trimming the form field keeps it. */
  lemma ValidTextIsTrimmed(v: string)
    requires IsValidText(v)
    ensures Trim(v) == v
  {
    ValidTextMeans(v);
    TrimOfTrimmed(v);
  }

  // ---------------------------------------------------------------------------
  // parseInt(v, 10)
  // ---------------------------------------------------------------------------

  predicate IsDigit(c: char) {
    '0' <= c <= '9'
  }

  predicate AllDigits(d: string) {
    forall k :: 0 <= k < |d| ==> IsDigit(d[k])
  }

  function DigitValue(c: char): nat
    requires IsDigit(c)
  {
    (c as int) - ('0' as int)
  }

  function DigitChar(n: nat): (c: char)
    requires n < 10
    ensures IsDigit(c) && DigitValue(c) == n
  {
    (('0' as int) + n) as char
  }

  /** The longest prefix of `s` made of decimal digits. */
  function LeadingDigits(s: string): (d: string)
    ensures AllDigits(d)
  {
    if s == [] || !IsDigit(s[0]) then [] else [s[0]] + LeadingDigits(s[1..])
  }

  /** `LeadingDigits` is the longest all-digit prefix. */
  lemma {:induction false} LeadingDigitsSpec(s: string)
    ensures var d := LeadingDigits(s);
            && |d| <= |s| && d == s[..|d|]
            && (|d| < |s| ==> !IsDigit(s[|d|]))
  {
    if s != [] && IsDigit(s[0]) {
      LeadingDigitsSpec(s[1..]);
    }
  }

  /** The value of a decimal numeral, most significant digit first. */
  function DigitsValue(d: string): nat
    requires AllDigits(d)
    decreases |d|
  {
    if d == [] then 0 else 10 * DigitsValue(d[..|d| - 1]) + DigitValue(d[|d| - 1])
  }

  /** `parseInt(s, 10)`: skip leading white space, read an optional sign, then the
      longest run of digits; `None` stands for `NaN` (no digit at all). The value
      is exact (the model does not round past 2^53). */
  function ParseInt(s: string): Option<int> {
    var t := TrimStart(s);
    var negative := |t| > 0 && t[0] == '-';
    var body := if |t| > 0 && (t[0] == '-' || t[0] == '+') then t[1..] else t;
    var d := LeadingDigits(body);
    var magnitude: int := if d == [] then 0 else DigitsValue(d);
    if d == [] then None
    else if negative then Some(-magnitude)
    else Some(magnitude)
  }

  /** The canonical decimal numeral of a natural number. */
  function DecimalString(n: nat): (r: string)
    ensures |r| > 0 && AllDigits(r)
    ensures r[0] == '0' ==> n == 0
  {
    (if n < 10 then [] else DecimalString(n / 10)) + [DigitChar(n % 10)]
  }

  lemma {:induction false} DecimalValue(n: nat)
    ensures DigitsValue(DecimalString(n)) == n
  {
    var r := DecimalString(n);
    if n >= 10 {
      DecimalValue(n / 10);
      assert r[..|r| - 1] == DecimalString(n / 10);
    } else {
      assert r[..|r| - 1] == [];
    }
  }

  lemma {:induction false} LeadingDigitsStopAt(d: string, tail: string)
    requires AllDigits(d)
    requires tail == [] || !IsDigit(tail[0])
    ensures LeadingDigits(d + tail) == d
    decreases |d|
  {
    if d != [] {
      assert (d + tail)[1..] == d[1..] + tail;
      LeadingDigitsStopAt(d[1..], tail);
    } else {
      assert d + tail == tail;
    }
  }

  lemma ParseIntUnsigned(u: string)
    requires u != [] && IsDigit(u[0])
    ensures ParseInt(u) == Some(DigitsValue(LeadingDigits(u)))
  {
    assert !IsJsSpace(u[0]);
    assert TrimStart(u) == u;
    assert u[0] != '-' && u[0] != '+';
    var d := LeadingDigits(u);
    assert d != [];
  }

  lemma ParseIntNegative(u: string)
    requires u != [] && IsDigit(u[0])
    ensures ParseInt("-" + u) == Some(0 - DigitsValue(LeadingDigits(u)))
  {
    var m := "-" + u;
    assert TrimStart(m) == m;
    assert m[1..] == u;
  }

  /** `parseInt` reads back the numeral of `n`, whatever non-digit text follows it
      ("12abc" and "12.5" both give 12). */
  lemma ParseIntReadsNumeral(n: nat, tail: string)
    requires tail == [] || !IsDigit(tail[0])
    ensures ParseInt(DecimalString(n) + tail) == Some(n)
  {
    var d := DecimalString(n);
    var u := d + tail;
    assert u[0] == d[0];
    LeadingDigitsStopAt(d, tail);
    DecimalValue(n);
    ParseIntUnsigned(u);
  }

  /** ... and, after a minus sign, its negation. */
  lemma ParseIntReadsNegative(n: nat, tail: string)
    requires tail == [] || !IsDigit(tail[0])
    ensures ParseInt("-" + DecimalString(n) + tail) == Some(0 - n)
  {
    var d := DecimalString(n);
    var u := d + tail;
    calc {
      ParseInt("-" + d + tail);
      { assert "-" + d + tail == "-" + u; }
      ParseInt("-" + u);
      { assert u[0] == d[0]; ParseIntNegative(u); }
      Some(0 - DigitsValue(LeadingDigits(u)));
      { LeadingDigitsStopAt(d, tail); DecimalValue(n); }
      Some(0 - n);
    }
  }

  /** `parseInt` of a numeral with nothing after it. */
  lemma ParseIntOfNumeral(n: nat)
    ensures ParseInt(DecimalString(n)) == Some(n)
  {
    ParseIntReadsNumeral(n, []);
    assert DecimalString(n) + [] == DecimalString(n);
  }

  /** `parseInt` gives `NaN` exactly when, after white space and an optional sign,
      no digit follows. */
  lemma ParseIntFails(s: string)
    ensures ParseInt(s).None? <==>
              var t := TrimStart(s);
              var body := if |t| > 0 && (t[0] == '-' || t[0] == '+') then t[1..] else t;
              body == [] || !IsDigit(body[0])
  {
  }

  // ---------------------------------------------------------------------------
  // parseHHMMSS / parseTaskDuration
  // ---------------------------------------------------------------------------

  /** `field.value || "0"`: an empty field stands for zero. */
  function OrZero(field: string): string {
    if field == "" then "0" else field
  }

  /** One time field: `parseInt(field.value || "0", 10)`. */
  function ParseField(field: string): Option<int> {
    ParseInt(OrZero(field))
  }

  /** The range check and the sum: seconds, or `None` when a component is `NaN`,
      negative, or minutes or seconds exceed 59. */
  function Seconds(h: Option<int>, m: Option<int>, s: Option<int>): (r: Option<int>)
    ensures r.Some? ==> r.value >= 0
  {
    if h.None? || m.None? || s.None? || h.value < 0 || m.value < 0 || s.value < 0
       || m.value > 59 || s.value > 59
    then None
    else Some(h.value * 3600 + m.value * 60 + s.value)
  }

  /** `parseHHMMSS()` and `parseTaskDuration()`, the same code on two groups of
      fields. */
  function ParseTime(hh: string, mm: string, ss: string): (r: Option<int>)
    ensures r.Some? ==> r.value >= 0
  {
    Seconds(ParseField(hh), ParseField(mm), ParseField(ss))
  }

  /** The three fields written as numerals convert to h*3600 + m*60 + s. */
  lemma TimeOfNumerals(h: nat, m: nat, s: nat)
    requires m <= 59 && s <= 59
    ensures ParseTime(DecimalString(h), DecimalString(m), DecimalString(s)) == Some(h * 3600 + m * 60 + s)
  {
    ParseIntOfNumeral(h);
    ParseIntOfNumeral(m);
    ParseIntOfNumeral(s);
    TimeOfFields(DecimalString(h), DecimalString(m), DecimalString(s), h, m, s);
  }

  lemma TimeOfFields(hh: string, mm: string, ss: string, h: nat, m: nat, s: nat)
    requires m <= 59 && s <= 59
    requires ParseField(hh) == Some(h) && ParseField(mm) == Some(m) && ParseField(ss) == Some(s)
    ensures ParseTime(hh, mm, ss) == Some(h * 3600 + m * 60 + s)
  {
  }


  /** A converted time determines its three components: hours, minutes and seconds
      are recovered from the total by division. */
  lemma TimeDecomposes(hh: string, mm: string, ss: string)
    requires ParseTime(hh, mm, ss).Some?
    ensures var t := ParseTime(hh, mm, ss).value;
            && ParseInt(OrZero(hh)) == Some(t / 3600)
            && ParseInt(OrZero(mm)) == Some(t % 3600 / 60)
            && ParseInt(OrZero(ss)) == Some(t % 60)
  {
    var t := ParseTime(hh, mm, ss).value;
    var h := ParseInt(OrZero(hh)).value;
    var m := ParseInt(OrZero(mm)).value;
    var s := ParseInt(OrZero(ss)).value;
    assert t == h * 3600 + (m * 60 + s);
    assert t / 3600 == h && t % 3600 == m * 60 + s;
    assert (m * 60 + s) / 60 == m;
    assert t == (h * 60 + m) * 60 + s;
    assert t % 60 == s;
  }

  /** Converting the components of any number of seconds gives it back. */
  lemma TimeRoundTrip(t: nat)
    ensures ParseTime(DecimalString(t / 3600), DecimalString(t % 3600 / 60), DecimalString(t % 60)) == Some(t)
  {
    var h, r := t / 3600, t % 3600;
    var m, sec := r / 60, r % 60;
    assert t == h * 3600 + r;
    assert r == m * 60 + sec;
    assert t % 60 == sec;
    TimeOfNumerals(h, m, sec);
  }

  /** Three empty fields mean zero. */
  lemma EmptyTimeIsZero()
    ensures ParseTime("", "", "") == Some(0)
  {
    assert ParseField("") == Some(0) by {
      ParseIntOfNumeral(0);
      assert DecimalString(0) == "0";
    }
    TimeOfFields("", "", "", 0, 0, 0);
  }

  /** "1", "2", "3" is one hour, two minutes and three seconds. */
  lemma TimeExample()
    ensures ParseTime("1", "2", "3") == Some(3723)
  {
    assert DecimalString(1) == "1";
    assert DecimalString(2) == "2";
    assert DecimalString(3) == "3";
    TimeOfNumerals(1, 2, 3);
  }

  /** 60 minutes are refused. */
  lemma SixtyMinutesRefused()
    ensures ParseTime("0", "60", "00") == None
  {
    assert ParseField("60") == Some(60) by {
      ParseIntOfNumeral(60);
      assert DecimalString(60) == "60";
    }
  }

  /** A field without leading digits is refused. */
  lemma NonNumericFieldRefused()
    ensures ParseTime("1", "x", "") == None
  {
    assert ParseField("x") == None by { ParseIntFails("x"); }
  }

  // ---------------------------------------------------------------------------
  // new Date().toISOString().split('T')[0]
  // ---------------------------------------------------------------------------

  /** `iso.split('T')[0]`: the text before the first 'T'. */
  function DatePart(iso: string): (r: string)
    ensures |r| <= |iso| && r == iso[..|r|]
    ensures forall k :: 0 <= k < |r| ==> r[k] != 'T'
    ensures |r| < |iso| ==> iso[|r|] == 'T'
  {
    if iso == [] || iso[0] == 'T' then [] else [iso[0]] + DatePart(iso[1..])
  }
}

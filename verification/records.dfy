/**
 * The text form of one aircraft of the maintenance input, `ID-TIPO-RESTR-T1-T2`: the line is
 * stripped of surrounding whitespace, split on `-`, and the two task counts are read as
 * integers. The same five fields, joined by `-`, head each aircraft line of the results file.
 */
module Records {
  import opened Wrappers
  import opened Workshops

  /** The field separator of an aircraft line. */
  const Dash: char := '-'

  /**
   * The characters `str.strip()` and `int()` treat as blank: tab through carriage return, the
   * four separators `\x1c`-`\x1f`, space, next line, no-break space, and the Unicode spaces,
   * line and paragraph separators.
   */
  predicate IsSpace(c: char) {
    || '\t' <= c <= '\r'
    || '\U{1c}' <= c <= '\U{1f}'
    || c == ' ' || c == '\U{85}' || c == '\U{a0}' || c == '\U{1680}'
    || '\U{2000}' <= c <= '\U{200a}'
    || c == '\U{2028}' || c == '\U{2029}' || c == '\U{202f}' || c == '\U{205f}' || c == '\U{3000}'
  }

  predicate IsDigit(c: char) {
    '0' <= c <= '9'
  }

  /** The position of the first occurrence of `c` in `s`. */
  function FirstIndex(s: string, c: char): (i: nat)
    requires c in s
    ensures i < |s| && s[i] == c && c !in s[..i]
  {
    if s[0] == c then 0
    else
      var i := 1 + FirstIndex(s[1..], c);
      assert s[..i] == [s[0]] + s[1..][..i - 1];
      i
  }

  /** `s.split("-")`: the pieces between the separators, at least one, none holding a separator. */
  function Split(s: string): (parts: seq<string>)
    ensures |parts| > 0
    ensures forall k | 0 <= k < |parts| :: Dash !in parts[k]
    decreases |s|
  {
    if Dash !in s then [s]
    else
      var i := FirstIndex(s, Dash);
      [s[..i]] + Split(s[i + 1..])
  }

  /** `"-".join(parts)`. */
  function Join(parts: seq<string>): string
    requires |parts| > 0
  {
    if |parts| == 1 then parts[0] else parts[0] + [Dash] + Join(parts[1..])
  }

  /** Joining the pieces of a split gives the line back. */
  lemma {:induction false} JoinSplit(s: string)
    ensures Join(Split(s)) == s
    decreases |s|
  {
    if Dash in s {
      var i := FirstIndex(s, Dash);
      JoinSplit(s[i + 1..]);
      assert Split(s)[1..] == Split(s[i + 1..]);
      assert s == s[..i] + [Dash] + s[i + 1..];
    }
  }

  /** Splitting a join of separator-free pieces gives the pieces back. */
  lemma {:induction false} SplitJoin(parts: seq<string>)
    requires |parts| > 0
    requires forall k | 0 <= k < |parts| :: Dash !in parts[k]
    ensures Split(Join(parts)) == parts
  {
    if |parts| > 1 {
      var tail := parts[1..];
      assert Join(parts) == parts[0] + [Dash] + Join(tail);
      FirstDashAfter(parts[0], Join(tail));
      assert forall k | 0 <= k < |tail| :: tail[k] == parts[k + 1];
      SplitJoin(tail);
      assert parts == [parts[0]] + tail;
    }
  }

  /** Splitting a separator-free piece, a separator and the rest takes off the piece. */
  lemma FirstDashAfter(a: string, rest: string)
    requires Dash !in a
    ensures Split(a + [Dash] + rest) == [a] + Split(rest)
  {
    var s := a + [Dash] + rest;
    assert s[|a|] == Dash;
    var i := FirstIndex(s, Dash);
    assert s[..i] == a;
    assert s[i + 1..] == rest;
  }

  /** The number of blank characters at the front of `s`. */
  function LeadingBlanks(s: string): (n: nat)
    ensures n <= |s|
    ensures forall k | 0 <= k < n :: IsSpace(s[k])
    ensures n < |s| ==> !IsSpace(s[n])
  {
    if |s| == 0 || !IsSpace(s[0]) then 0 else 1 + LeadingBlanks(s[1..])
  }

  /** The number of blank characters at the back of `s`. */
  function TrailingBlanks(s: string): (n: nat)
    ensures n <= |s|
    ensures forall k | |s| - n <= k < |s| :: IsSpace(s[k])
    ensures n < |s| ==> !IsSpace(s[|s| - n - 1])
  {
    if |s| == 0 || !IsSpace(s[|s| - 1]) then 0 else 1 + TrailingBlanks(s[..|s| - 1])
  }

  /** `s.strip()`: the blanks at both ends removed. */
  function Strip(s: string): (r: string)
    ensures |r| > 0 ==> !IsSpace(r[0]) && !IsSpace(r[|r| - 1])
  {
    var a := LeadingBlanks(s);
    var rest := s[a..];
    rest[..|rest| - TrailingBlanks(rest)]
  }

  /** Stripping removes nothing but blanks: the result is a slice of `s` with only blanks around it. */
  lemma StripSlice(s: string) returns (a: nat, b: nat)
    ensures a <= b <= |s| && Strip(s) == s[a..b]
    ensures forall k | 0 <= k < a || b <= k < |s| :: IsSpace(s[k])
  {
    a := LeadingBlanks(s);
    var rest := s[a..];
    b := a + |rest| - TrailingBlanks(rest);
    assert forall k | b <= k < |s| :: s[k] == rest[k - a];
  }

  /** A text without blanks at its ends is left alone by stripping. */
  lemma StripKeeps(s: string)
    requires |s| > 0 ==> !IsSpace(s[0]) && !IsSpace(s[|s| - 1])
    ensures Strip(s) == s
  {
    var a := LeadingBlanks(s);
    assert a == 0;
    assert s[a..] == s;
  }

  /** Stripping twice strips no more than once. */
  lemma StripIdempotent(s: string)
    ensures Strip(Strip(s)) == Strip(s)
  {
    StripKeeps(Strip(s));
  }

  /** The value of a non-empty run of decimal digits. */
  function DigitsValue(t: string): nat
    requires forall k | 0 <= k < |t| :: IsDigit(t[k])
  {
    if |t| == 0 then 0
    else
      assert IsDigit(t[|t| - 1]);
      10 * DigitsValue(t[..|t| - 1]) + (t[|t| - 1] as int - '0' as int)
  }

  /**
   * `int(s)` on a field: blanks around the digits are allowed, anything else but a non-empty run
   * of digits is refused.
   */
  function ParseNat(s: string): Option<nat>
  {
    var t := Strip(s);
    if |t| > 0 && forall k | 0 <= k < |t| :: IsDigit(t[k]) then Some(DigitsValue(t)) else None
  }

  /** A run of `z` zero digits. */
  function Zeros(z: nat): (t: string)
    ensures |t| == z && forall k | 0 <= k < z :: t[k] == '0'
  {
    seq(z, _ => '0')
  }

  /** Leading zeros do not change the value of a run of digits. */
  lemma {:induction false} ZerosValue(z: nat, t: string)
    requires forall k | 0 <= k < |t| :: IsDigit(t[k])
    ensures DigitsValue(Zeros(z) + t) == DigitsValue(t)
  {
    var s := Zeros(z) + t;
    if |t| == 0 {
      assert s == Zeros(z);
      if z > 0 {
        assert s[..|s| - 1] == Zeros(z - 1) + [];
        ZerosValue(z - 1, []);
      }
    } else {
      assert s[..|s| - 1] == Zeros(z) + t[..|t| - 1];
      ZerosValue(z, t[..|t| - 1]);
    }
  }

  /** Blanks around a text whose ends are not blank are exactly what stripping removes. */
  lemma StripPadded(pre: string, d: string, post: string)
    requires forall k | 0 <= k < |pre| :: IsSpace(pre[k])
    requires forall k | 0 <= k < |post| :: IsSpace(post[k])
    requires |d| > 0 && !IsSpace(d[0]) && !IsSpace(d[|d| - 1])
    ensures Strip(pre + d + post) == d
  {
    var s := pre + d + post;
    var a := LeadingBlanks(s);
    assert s[|pre|] == d[0];
    assert a == |pre|;
    var rest := s[a..];
    assert rest == d + post;
    var b := TrailingBlanks(rest);
    assert rest[|d| - 1] == d[|d| - 1];
    assert b == |post|;
    assert rest[..|rest| - b] == d;
  }

  /**
   * `int()` reads a number written with any leading zeros and any blanks of `str.isspace` around
   * it, such as `" 007\r"`.
   */
  lemma ParsePadded(pre: string, z: nat, n: nat, post: string)
    requires forall k | 0 <= k < |pre| :: IsSpace(pre[k])
    requires forall k | 0 <= k < |post| :: IsSpace(post[k])
    ensures ParseNat(pre + Zeros(z) + ShowNat(n) + post) == Some(n)
  {
    var d := Zeros(z) + ShowNat(n);
    assert pre + Zeros(z) + ShowNat(n) + post == pre + d + post;
    assert d[|d| - 1] == ShowNat(n)[|ShowNat(n)| - 1];
    assert forall k | 0 <= k < |d| :: IsDigit(d[k]);
    StripPadded(pre, d, post);
    ZerosValue(z, ShowNat(n));
    ShowNatValue(n);
  }

  /** The decimal text of `n` as `str(n)` writes it: no sign, no leading zero. */
  function ShowNat(n: nat): (t: string)
    ensures |t| > 0 && forall k | 0 <= k < |t| :: IsDigit(t[k])
    ensures |t| > 1 ==> t[0] != '0'
  {
    if n < 10 then ['0' + n as char]
    else ShowNat(n / 10) + ['0' + (n % 10) as char]
  }

  /** Reading the written digits of `n` gives `n`. */
  lemma {:induction false} ShowNatValue(n: nat)
    ensures DigitsValue(ShowNat(n)) == n
  {
    if n >= 10 {
      ShowNatValue(n / 10);
      var t := ShowNat(n);
      assert t[..|t| - 1] == ShowNat(n / 10);
    }
  }

  /** `int(str(n)) == n`. */
  lemma ParseShow(n: nat)
    ensures ParseNat(ShowNat(n)) == Some(n)
  {
    var t := ShowNat(n);
    assert !IsSpace(t[0]) && !IsSpace(t[|t| - 1]);
    StripKeeps(t);
    ShowNatValue(n);
  }

  /** Why an aircraft line cannot be read. */
  datatype RecordError = MissingFields(found: nat) | NotANumber(field: string)

  /**
   * `extract_aircraft`: the dictionary is built field by field, so a line with fewer than four
   * fields is short of a field before any number is read, a fourth field that is not an integer
   * is refused next, and only then is a missing fifth field noticed; fields after the fifth are
   * ignored.
   */
  function ExtractAircraft(line: string): (r: Result<Aircraft, RecordError>)
    ensures var parts := Split(Strip(line));
            && (r == Err(MissingFields(|parts|)) <==> |parts| < 4 || (|parts| == 4 && ParseNat(parts[3]).Some?))
            && (|parts| >= 4 && ParseNat(parts[3]).None? ==> r == Err(NotANumber(parts[3])))
            && (r.Ok? ==> |parts| >= 5 && parts[..3] == [r.value.id, r.value.kind, r.value.restr])
            && (r.Ok? ==> ParseNat(parts[3]) == Some(r.value.t1) && ParseNat(parts[4]) == Some(r.value.t2))
            && (|parts| >= 5 && ParseNat(parts[3]).Some? && ParseNat(parts[4]).None? ==> r == Err(NotANumber(parts[4])))
            && (|parts| >= 5 && ParseNat(parts[3]).Some? && ParseNat(parts[4]).Some? ==>
                  r == Ok(Aircraft(parts[0], parts[1], parts[2], ParseNat(parts[3]).value, ParseNat(parts[4]).value)))
  {
    var parts := Split(Strip(line));
    if |parts| < 4 then Err(MissingFields(|parts|))
    else
      match ParseNat(parts[3])
      case None => Err(NotANumber(parts[3]))
      case Some(t1) =>
        if |parts| < 5 then Err(MissingFields(|parts|))
        else
          match ParseNat(parts[4])
          case None => Err(NotANumber(parts[4]))
          case Some(t2) => Ok(Aircraft(parts[0], parts[1], parts[2], t1, t2))
  }

  /** A field that starts with something other than a blank or a digit is not an integer. */
  lemma NotDigitLead(s: string)
    requires |s| > 0 && !IsSpace(s[0]) && !IsSpace(s[|s| - 1]) && !IsDigit(s[0])
    ensures ParseNat(s) == None
  {
    StripKeeps(s);
  }

  /** A four-field line whose fourth field is not a number is refused for that field, not for the missing fifth. */
  lemma FourthFieldReadFirst()
    ensures ExtractAircraft("1-JMB-T-x") == Err(NotANumber("x"))
  {
    var parts := ["1", "JMB", "T", "x"];
    assert Join(parts) == "1-JMB-T-x";
    SplitJoin(parts);
    JoinStripped(parts);
    NotDigitLead("x");
  }

  /** The five fields of an aircraft as the results file writes them ahead of its cells. */
  function Header(a: Aircraft): string {
    Join([a.id, a.kind, a.restr, ShowNat(a.t1), ShowNat(a.t2)])
  }

  /** The text fields of an aircraft that a line can carry: no separator, and no blank ahead of the identifier. */
  predicate Writable(a: Aircraft) {
    && Dash !in a.id && Dash !in a.kind && Dash !in a.restr
    && (|a.id| > 0 ==> !IsSpace(a.id[0]))
  }

  /** A join begins with its first piece and ends with its last, each next to a separator when there are several. */
  lemma {:induction false} JoinEnds(parts: seq<string>)
    requires |parts| > 0
    ensures var j, first, last := Join(parts), parts[0], parts[|parts| - 1];
            && |j| >= |first| && |j| >= |last| && j[..|first|] == first && j[|j| - |last|..] == last
            && (|parts| > 1 ==> |j| > |first| && |j| > |last| && j[|first|] == Dash && j[|j| - |last| - 1] == Dash)
  {
    if |parts| > 1 {
      JoinEnds(parts[1..]);
      assert Join(parts) == parts[0] + [Dash] + Join(parts[1..]);
    }
  }

  /** A join whose first piece does not begin and whose last piece does not end with a blank is left alone by stripping. */
  lemma JoinStripped(parts: seq<string>)
    requires |parts| > 0
    requires |parts[0]| > 0 ==> !IsSpace(parts[0][0])
    requires |parts[|parts| - 1]| > 0 ==> !IsSpace(parts[|parts| - 1][|parts[|parts| - 1]| - 1])
    ensures Strip(Join(parts)) == Join(parts)
  {
    var j, first, last := Join(parts), parts[0], parts[|parts| - 1];
    JoinEnds(parts);
    if |first| > 0 {
      assert j[0] == j[..|first|][0];
    }
    if |last| > 0 {
      assert j[|j| - 1] == j[|j| - |last|..][|last| - 1];
    }
    StripKeeps(j);
  }

  /** A line joined from at least five separator-free fields, the fourth and fifth written numbers, reads as those fields. */
  lemma ReadJoined(parts: seq<string>, t1: nat, t2: nat)
    requires |parts| >= 5 && forall k | 0 <= k < |parts| :: Dash !in parts[k]
    requires |parts[0]| > 0 ==> !IsSpace(parts[0][0])
    requires |parts[|parts| - 1]| > 0 ==> !IsSpace(parts[|parts| - 1][|parts[|parts| - 1]| - 1])
    requires parts[3] == ShowNat(t1) && parts[4] == ShowNat(t2)
    ensures ExtractAircraft(Join(parts)) == Ok(Aircraft(parts[0], parts[1], parts[2], t1, t2))
  {
    JoinStripped(parts);
    SplitJoin(parts);
    ParseShow(t1);
    ParseShow(t2);
  }

  /** Reading back a written aircraft header gives the aircraft. */
  lemma ExtractHeader(a: Aircraft)
    requires Writable(a)
    ensures ExtractAircraft(Header(a)) == Ok(a)
  {
    var parts := [a.id, a.kind, a.restr, ShowNat(a.t1), ShowNat(a.t2)];
    forall k | 0 <= k < 5 ensures Dash !in parts[k] {
    }
    ReadJoined(parts, a.t1, a.t2);
  }

  /** Fields after the fifth do not change what is read. */
  lemma ExtraFieldsIgnored(a: Aircraft, extra: string)
    requires Writable(a) && Dash !in extra
    requires |extra| > 0 ==> !IsSpace(extra[|extra| - 1])
    ensures ExtractAircraft(Header(a) + [Dash] + extra) == Ok(a)
  {
    var five := [a.id, a.kind, a.restr, ShowNat(a.t1), ShowNat(a.t2)];
    var parts := five + [extra];
    JoinTail(five, extra);
    forall k | 0 <= k < 6 ensures Dash !in parts[k] {
    }
    ReadJoined(parts, a.t1, a.t2);
  }

  /** Appending a piece to a join appends a separator and the piece. */
  lemma {:induction false} JoinTail(parts: seq<string>, last: string)
    requires |parts| > 0
    ensures Join(parts + [last]) == Join(parts) + [Dash] + last
  {
    if |parts| > 1 {
      JoinTail(parts[1..], last);
      assert (parts + [last])[1..] == parts[1..] + [last];
    }
  }
}

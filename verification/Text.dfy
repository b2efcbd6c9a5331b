/** Strings as the C and Go programs handle them: splitting on a separator, printing an
    integer in decimal, and the two readers of decimal text, `atoi` and `strconv.ParseInt`.
    A byte is a `char` below 256. */
module Text {

  datatype Option<+T> = None | Some(value: T)

  predicate IsByte(c: char) { c as int < 256 }

  ghost predicate Bytes(s: string) { forall i | 0 <= i < |s| :: IsByte(s[i]) }

  /** `++` on a `uint8_t`. */
  function Increment(counter: nat): nat {
    if counter < 255 then counter + 1 else 0
  }

  // ---------------------------------------------------------------- splitting

  /** The inverse of Split: the parts with the separator between them. */
  function Join(parts: seq<string>, sep: char): string {
    if parts == [] then ""
    else if |parts| == 1 then parts[0]
    else parts[0] + [sep] + Join(parts[1..], sep)
  }

  ghost predicate Without(parts: seq<string>, sep: char) {
    forall i | 0 <= i < |parts| :: sep !in parts[i]
  }

  lemma {:induction false} JoinHasNo(parts: seq<string>, sep: char, c: char)
    requires Without(parts, c) && c != sep
    ensures c !in Join(parts, sep)
  {
    if parts != [] {
      assert c !in parts[0];
      JoinHasNo(parts[1..], sep, c);
    }
  }

  /** `strings.Split` with a one-byte separator. */
  function Split(s: string, sep: char): (parts: seq<string>)
    ensures |parts| >= 1
    ensures Without(parts, sep)
    ensures Join(parts, sep) == s
  {
    if s == "" then [""]
    else if s[0] == sep then
      var rest := Split(s[1..], sep);
      assert s == [sep] + s[1..];
      [""] + rest
    else
      var rest := Split(s[1..], sep);
      var first := [s[0]] + rest[0];
      assert Join([first] + rest[1..], sep) == [s[0]] + Join(rest, sep);
      [first] + rest[1..]
  }

  /** A separator-free prefix becomes the first part. */
  lemma {:induction false} SplitFirst(p: string, sep: char, rest: string)
    requires sep !in p
    ensures Split(p + [sep] + rest, sep) == [p] + Split(rest, sep)
  {
    var s := p + [sep] + rest;
    if p == "" {
      assert s[1..] == rest;
    } else {
      assert s[1..] == p[1..] + [sep] + rest;
      SplitFirst(p[1..], sep, rest);
      assert p == [p[0]] + p[1..];
    }
  }

  lemma {:induction false} SplitWhole(p: string, sep: char)
    requires sep !in p
    ensures Split(p, sep) == [p]
  {
    if p != "" {
      SplitWhole(p[1..], sep);
      assert p == [p[0]] + p[1..];
    }
  }

  /** Split is the only way to cut a string into separator-free parts that join back to it. */
  lemma {:induction false} SplitUnique(parts: seq<string>, sep: char)
    requires |parts| >= 1 && Without(parts, sep)
    ensures Split(Join(parts, sep), sep) == parts
  {
    assert sep !in parts[0];
    if |parts| == 1 {
      SplitWhole(parts[0], sep);
    } else {
      SplitUnique(parts[1..], sep);
      SplitFirst(parts[0], sep, Join(parts[1..], sep));
      assert parts == [parts[0]] + parts[1..];
    }
  }

  lemma SplitCons(c: char, s: string, sep: char)
    ensures Split([c] + s, sep) == if c == sep then [""] + Split(s, sep)
                                   else [[c] + Split(s, sep)[0]] + Split(s, sep)[1..]
  {
    assert ([c] + s)[1..] == s;
  }

  /** The parts when one more byte comes: it extends the last part or opens a new one. */
  function Push(parts: seq<string>, sep: char, c: char): seq<string>
    requires parts != []
  {
    if c == sep then parts + [""] else parts[..|parts| - 1] + [parts[|parts| - 1] + [c]]
  }

  lemma PushAfter(first: string, parts: seq<string>, sep: char, c: char)
    requires parts != []
    ensures [first] + Push(parts, sep, c) == Push([first] + parts, sep, c)
  {
  }

  lemma PushFirst(a: char, parts: seq<string>, sep: char, c: char)
    requires parts != []
    ensures var pushed := Push(parts, sep, c);
            [[a] + pushed[0]] + pushed[1..] == Push([[a] + parts[0]] + parts[1..], sep, c)
  {
    assert ([a] + parts[0]) + [c] == [a] + (parts[0] + [c]);
  }

  lemma {:induction false} SplitSnoc(s: string, sep: char, c: char)
    ensures Split(s + [c], sep) == Push(Split(s, sep), sep, c)
  {
    if s == "" {
      SplitCons(c, "", sep);
      assert s + [c] == [c] + "";
    } else {
      var a, rest := s[0], s[1..];
      SplitSnoc(rest, sep, c);
      assert s + [c] == [a] + (rest + [c]) && s == [a] + rest;
      SplitCons(a, rest + [c], sep);
      SplitCons(a, rest, sep);
      PushAfter("", Split(rest, sep), sep, c);
      PushFirst(a, Split(rest, sep), sep, c);
    }
  }

  lemma PrefixFirst(a: char, rest: string, parts: seq<string>)
    requires parts != []
    ensures var longer := [rest + parts[0]] + parts[1..];
            [[a] + longer[0]] + longer[1..] == [([a] + rest) + parts[0]] + parts[1..]
  {
    assert [a] + (rest + parts[0]) == ([a] + rest) + parts[0];
  }

  /** Bytes put in front of a string belong to its first part. */
  lemma {:induction false} SplitPrefix(p: string, sep: char, s: string)
    requires sep !in p
    ensures Split(p + s, sep) == [p + Split(s, sep)[0]] + Split(s, sep)[1..]
  {
    if p == "" {
      assert p + s == s;
      assert "" + Split(s, sep)[0] == Split(s, sep)[0];
    } else {
      var a, rest := p[0], p[1..];
      assert p + s == [a] + (rest + s);
      SplitPrefix(rest, sep, s);
      SplitCons(a, rest + s, sep);
      PrefixFirst(a, rest, Split(s, sep));
      assert p == [a] + rest;
    }
  }

  lemma ExtendFirst(c: char, x: seq<string>, y: seq<string>)
    requires x != []
    ensures ([[c] + x[0]] + x[1..]) + y == [[c] + (x + y)[0]] + (x + y)[1..]
    ensures ([""] + x) + y == [""] + (x + y)
  {
  }

  /** A separator between two texts separates their parts. */
  lemma {:induction false} SplitConcat(a: string, sep: char, b: string)
    ensures Split(a + [sep] + b, sep) == Split(a, sep) + Split(b, sep)
  {
    if a == "" {
      assert a + [sep] + b == [sep] + b;
      SplitCons(sep, b, sep);
    } else {
      var c, rest := a[0], a[1..];
      assert a + [sep] + b == [c] + (rest + [sep] + b) && a == [c] + rest;
      SplitCons(c, rest + [sep] + b, sep);
      SplitCons(c, rest, sep);
      SplitConcat(rest, sep, b);
      ExtendFirst(c, Split(rest, sep), Split(b, sep));
    }
  }

  // ---------------------------------------------------------------- decimal digits

  predicate IsDigit(c: char) { '0' <= c <= '9' }

  ghost predicate AllDigits(s: string) { forall i | 0 <= i < |s| :: IsDigit(s[i]) }

  function DigitChar(d: nat): (c: char)
    requires d < 10
    ensures IsDigit(c) && DigitVal(c) == d
  {
    ('0' as int + d) as char
  }

  function DigitVal(c: char): (d: nat)
    requires IsDigit(c)
    ensures d < 10
  {
    c as int - '0' as int
  }

  /** The number that a digit string denotes. */
  function NatOf(s: string): nat
    requires AllDigits(s)
  {
    if s == "" then 0 else NatOf(s[..|s| - 1]) * 10 + DigitVal(s[|s| - 1])
  }

  /** `%u`: no leading zeros. */
  function Digits(n: nat): (s: string)
    ensures s != ""
  {
    if n < 10 then [DigitChar(n)] else Digits(n / 10) + [DigitChar(n % 10)]
  }

  lemma {:induction false} DigitsDenote(n: nat)
    ensures AllDigits(Digits(n)) && NatOf(Digits(n)) == n
  {
    var s := Digits(n);
    if n < 10 {
      assert s[..0] == "";
    } else {
      DigitsDenote(n / 10);
      assert s[..|s| - 1] == Digits(n / 10);
    }
  }

  function Pow10(k: nat): (p: nat)
    ensures p > 0
  {
    if k == 0 then 1 else 10 * Pow10(k - 1)
  }

  /** `%0wd`: exactly w digits, keeping the low ones. */
  function Padded(n: nat, w: nat): (s: string)
    ensures |s| == w
  {
    if w == 0 then "" else Padded(n / 10, w - 1) + [DigitChar(n % 10)]
  }

  lemma {:induction false} PaddedDenotes(n: nat, w: nat)
    ensures AllDigits(Padded(n, w))
    ensures n < Pow10(w) ==> NatOf(Padded(n, w)) == n
  {
    if w > 0 {
      var s := Padded(n, w);
      PaddedDenotes(n / 10, w - 1);
      assert s[..w - 1] == Padded(n / 10, w - 1);
    }
  }

  /** `%d`, `%i`, `%li`. */
  function Dec(n: int): (s: string)
    ensures s != ""
  {
    if n < 0 then "-" + Digits(-n) else Digits(n)
  }

  lemma DecChars(n: int, c: char)
    requires !IsDigit(c) && c != '-'
    ensures c !in Dec(n)
  {
    DigitsDenote(if n < 0 then -n else n);
  }

  lemma {:induction false} DigitsLength(n: nat, k: nat)
    requires k > 0
    ensures |Digits(n)| <= k <==> n < Pow10(k)
    decreases k
  {
    if k == 1 {
      assert Pow10(1) == 10 * Pow10(0);
    } else if n < 10 {
      DigitsLength(0, k - 1);
    } else {
      DigitsLength(n / 10, k - 1);
    }
  }

  // ---------------------------------------------------------------- strconv.ParseInt(s, 10, 64)

  const MAX_UINT64 := 0xFFFF_FFFF_FFFF_FFFF
  const MAX_INT64 := 0x7FFF_FFFF_FFFF_FFFF
  const MIN_INT64 := -0x8000_0000_0000_0000

  /** Result of the unsigned reader: a value, a value past 64 bits, or bad syntax. */
  datatype Scan = Number(n: nat) | TooBig | BadSyntax

  /** Reads the digits left to right; a bad byte is reported only if no overflow came before it. */
  function ScanDigits(s: string, acc: nat): Scan
    decreases |s|
  {
    if s == "" then Number(acc)
    else if !IsDigit(s[0]) then BadSyntax
    else if acc * 10 + DigitVal(s[0]) > MAX_UINT64 then TooBig
    else ScanDigits(s[1..], acc * 10 + DigitVal(s[0]))
  }

  /** The number that the callers keep when they drop the error: 0 on bad syntax, the nearest
      64-bit bound when out of range. */
  function ParseInt(s: string): (v: int)
    ensures MIN_INT64 <= v <= MAX_INT64
  {
    var signed := s != "" && (s[0] == '+' || s[0] == '-');
    var digits := if signed then s[1..] else s;
    var negative := signed && s[0] == '-';
    if digits == "" then 0
    else match ScanDigits(digits, 0)
      case BadSyntax => 0
      case TooBig => if negative then MIN_INT64 else MAX_INT64
      case Number(n) =>
        if negative then (if n > -MIN_INT64 then MIN_INT64 else 0 - n)
        else if n > MAX_INT64 then MAX_INT64 else n
  }

  /** The number denoted by digits read after a prefix worth acc. */
  function Continue(acc: nat, s: string): nat
    requires AllDigits(s)
    decreases |s|
  {
    if s == "" then acc else Continue(acc * 10 + DigitVal(s[0]), s[1..])
  }

  lemma {:induction false} ContinueSnoc(acc: nat, s: string, c: char)
    requires AllDigits(s) && IsDigit(c)
    ensures AllDigits(s + [c])
    ensures Continue(acc, s + [c]) == Continue(acc, s) * 10 + DigitVal(c)
    decreases |s|
  {
    if s == "" {
      assert (s + [c])[1..] == "";
    } else {
      assert (s + [c])[1..] == s[1..] + [c];
      ContinueSnoc(acc * 10 + DigitVal(s[0]), s[1..], c);
    }
  }

  lemma {:induction false} ContinueIsNatOf(s: string)
    requires AllDigits(s)
    ensures Continue(0, s) == NatOf(s)
    decreases |s|
  {
    if s != "" {
      var init, last := s[..|s| - 1], s[|s| - 1];
      ContinueIsNatOf(init);
      ContinueSnoc(0, init, last);
      assert init + [last] == s;
    }
  }

  lemma {:induction false} ContinueGrows(acc: nat, s: string)
    requires AllDigits(s)
    ensures Continue(acc, s) >= acc
    decreases |s|
  {
    if s != "" { ContinueGrows(acc * 10 + DigitVal(s[0]), s[1..]); }
  }

  lemma {:induction false} ScanDigitsExact(s: string, acc: nat)
    requires AllDigits(s) && acc <= MAX_UINT64
    ensures ScanDigits(s, acc) == if Continue(acc, s) <= MAX_UINT64 then Number(Continue(acc, s)) else TooBig
    decreases |s|
  {
    if s != "" {
      var acc' := acc * 10 + DigitVal(s[0]);
      ContinueGrows(acc', s[1..]);
      if acc' <= MAX_UINT64 { ScanDigitsExact(s[1..], acc'); }
    }
  }

  /** The nearest number that fits 64 bits. */
  function Saturated(n: int): int {
    if n < MIN_INT64 then MIN_INT64 else if n > MAX_INT64 then MAX_INT64 else n
  }

  /** The number that digits after a sign, or after none, denote. */
  function SignedNat(sign: string, d: string): int
    requires AllDigits(d)
  {
    if sign == "-" then 0 - NatOf(d) else NatOf(d)
  }

  /** ParseInt reads digits with or without a sign as the number they denote, however many zeros come
      first, and saturates outside 64 bits. */
  lemma ParseIntOfDigits(sign: string, d: string)
    requires sign == "" || sign == "+" || sign == "-"
    requires AllDigits(d) && d != ""
    ensures ParseInt(sign + d) == Saturated(SignedNat(sign, d))
  {
    ContinueIsNatOf(d);
    ScanDigitsExact(d, 0);
    assert IsDigit(d[0]);
    if sign == "" {
      assert sign + d == d;
    } else {
      assert (sign + d)[1..] == d;
    }
  }

  /** A sign alone, or nothing, reads as 0. */
  lemma ParseIntOfNothing()
    ensures ParseInt("") == ParseInt("+") == ParseInt("-") == 0
  {
    assert "+"[1..] == "" && "-"[1..] == "";
  }

  /** ParseInt reads back what Dec printed, for every int64; outside it saturates. */
  lemma ParseIntOfDec(n: int)
    ensures ParseInt(Dec(n)) == if n < MIN_INT64 then MIN_INT64 else if n > MAX_INT64 then MAX_INT64 else n
  {
    var d := Digits(if n < 0 then -n else n);
    DigitsDenote(if n < 0 then -n else n);
    ParseIntOfDigits(if n < 0 then "-" else "", d);
    assert "" + d == d;
  }

  lemma {:induction false} Pow10Monotone(a: nat, b: nat)
    requires a <= b
    ensures Pow10(a) <= Pow10(b)
    decreases b
  {
    if a < b { Pow10Monotone(a, b - 1); }
  }

  lemma {:induction false} ScanStops(d: string, rest: string, acc: nat)
    requires AllDigits(d) && acc <= MAX_UINT64
    requires rest != "" && !IsDigit(rest[0])
    ensures ScanDigits(d + rest, acc) == if Continue(acc, d) <= MAX_UINT64 then BadSyntax else TooBig
    decreases |d|
  {
    if d == "" {
      assert d + rest == rest;
    } else {
      var acc' := acc * 10 + DigitVal(d[0]);
      assert (d + rest)[1..] == d[1..] + rest;
      ContinueGrows(acc', d[1..]);
      if acc' <= MAX_UINT64 { ScanStops(d[1..], rest, acc'); }
    }
  }

  /** Digits, with or without a sign, that go on with anything else read as 0, unless their number
      already needs more than 64 bits: then the bound is read. */
  lemma ParseIntOfJunk(sign: string, d: string, rest: string)
    requires sign == "" || sign == "+" || sign == "-"
    requires AllDigits(d) && rest != "" && !IsDigit(rest[0])
    requires sign == "" && d == "" ==> rest[0] != '+' && rest[0] != '-'
    ensures ParseInt(sign + d + rest)
         == if NatOf(d) <= MAX_UINT64 then 0 else if sign == "-" then MIN_INT64 else MAX_INT64
  {
    ScanStops(d, rest, 0);
    ContinueIsNatOf(d);
    if sign == "" {
      assert sign + d + rest == d + rest;
    } else {
      assert (sign + d + rest)[1..] == d + rest;
    }
  }

  // ---------------------------------------------------------------- atoi

  predicate IsSpace(c: char) { c == ' ' || '\t' <= c <= '\r' }

  function SkipSpaces(s: string): string {
    if s != "" && IsSpace(s[0]) then SkipSpaces(s[1..]) else s
  }

  /** The longest prefix of digits. */
  function LeadingDigits(s: string): (d: string)
    ensures AllDigits(d) && d <= s
    ensures |d| < |s| ==> !IsDigit(s[|d|])
  {
    if s != "" && IsDigit(s[0]) then [s[0]] + LeadingDigits(s[1..]) else ""
  }

  function Signed(t: string): int {
    if t != "" && t[0] == '-' then 0 - NatOf(LeadingDigits(t[1..]))
    else if t != "" && t[0] == '+' then NatOf(LeadingDigits(t[1..]))
    else NatOf(LeadingDigits(t))
  }

  /** `atoi`, on texts short enough for an `int` to hold the number. */
  function Atoi(s: string): int {
    Signed(SkipSpaces(s))
  }

  lemma {:induction false} LeadingDigitsAll(s: string)
    requires AllDigits(s)
    ensures LeadingDigits(s) == s
  {
    if s != "" {
      LeadingDigitsAll(s[1..]);
      assert s == [s[0]] + s[1..];
    }
  }

  lemma AtoiOfDigits(s: string)
    requires AllDigits(s)
    ensures Atoi(s) == NatOf(s)
  {
    LeadingDigitsAll(s);
    if s != "" { assert IsDigit(s[0]); }
  }

  lemma {:induction false} SkipsSpaces(spaces: string, t: string)
    requires forall i | 0 <= i < |spaces| :: spaces[i] == ' ' || 9 <= spaces[i] as int <= 13
    requires t == "" || !(t[0] == ' ' || 9 <= t[0] as int <= 13)
    ensures SkipSpaces(spaces + t) == t
  {
    if spaces == "" {
      assert spaces + t == t;
    } else {
      assert (spaces + t)[1..] == spaces[1..] + t;
      SkipsSpaces(spaces[1..], t);
    }
  }

  lemma {:induction false} LeadingDigitsStop(d: string, rest: string)
    requires AllDigits(d) && (rest == "" || !IsDigit(rest[0]))
    ensures LeadingDigits(d + rest) == d
  {
    if d == "" {
      assert d + rest == rest;
    } else {
      assert (d + rest)[1..] == d[1..] + rest;
      LeadingDigitsStop(d[1..], rest);
      assert d == [d[0]] + d[1..];
    }
  }

  /** What `atoi` reads of any text: white space, at most one sign, the digits up to anything else.
      Every text has this shape. */
  lemma AtoiExact(spaces: string, sign: string, d: string, rest: string)
    requires forall i | 0 <= i < |spaces| :: spaces[i] == ' ' || 9 <= spaces[i] as int <= 13
    requires sign == "" || sign == "+" || sign == "-"
    requires AllDigits(d) && (rest == "" || !IsDigit(rest[0]))
    requires sign == "" && d == "" && rest != "" ==> rest[0] !in "+- \t\n\r" && rest[0] as int != 11 && rest[0] as int != 12
    ensures Atoi(spaces + (sign + (d + rest))) == SignedNat(sign, d)
  {
    var t := sign + (d + rest);
    if sign != "" {
      assert t[0] == sign[0] && t[1..] == d + rest;
    } else {
      assert t == d + rest;
      if d != "" { assert t[0] == d[0] && IsDigit(d[0]); }
    }
    SkipsSpaces(spaces, t);
    LeadingDigitsStop(d, rest);
  }

  lemma {:induction false} NatOfBound(s: string)
    requires AllDigits(s)
    ensures NatOf(s) < Pow10(|s|)
  {
    if s != "" { NatOfBound(s[..|s| - 1]); }
  }

  lemma {:induction false} SkipSpacesShortens(s: string)
    ensures |SkipSpaces(s)| <= |s|
  {
    if s != "" && IsSpace(s[0]) { SkipSpacesShortens(s[1..]); }
  }

  lemma LeadingDigitsBound(s: string, k: nat)
    requires |s| <= k
    ensures NatOf(LeadingDigits(s)) < Pow10(k)
  {
    NatOfBound(LeadingDigits(s));
    Pow10Monotone(|LeadingDigits(s)|, k);
  }

  lemma SignedBound(t: string, k: nat)
    requires |t| <= k && k > 0
    ensures 0 - Pow10(k - 1) < Signed(t) < Pow10(k)
  {
    Pow10Monotone(k - 1, k);
    if t != "" && (t[0] == '-' || t[0] == '+') {
      LeadingDigitsBound(t[1..], k - 1);
    } else {
      LeadingDigitsBound(t, k);
    }
  }

  /** w characters hold a number of at most w digits, or w - 1 after a sign. */
  lemma AtoiBound(s: string)
    requires s != ""
    ensures 0 - Pow10(|s| - 1) < Atoi(s) < Pow10(|s|)
  {
    SkipSpacesShortens(s);
    SignedBound(SkipSpaces(s), |s|);
  }
}

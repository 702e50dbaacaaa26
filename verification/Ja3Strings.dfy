/**
 Decimal numbers, joined and split strings: what a JA3 string is made of.
 */
module Ja3Strings {
  import opened Wrappers

  predicate IsDigit(c: char) {
    '0' <= c <= '9'
  }

  /** White space as Go's unicode package defines it. */
  predicate IsSpace(c: char) {
    || '\t' <= c <= '\r' || c == ' ' || c == '\U{0085}' || c == '\U{00a0}' || c == '\U{1680}'
    || '\U{2000}' <= c <= '\U{200a}' || c == '\U{2028}' || c == '\U{2029}' || c == '\U{202f}' || c == '\U{205f}' || c == '\U{3000}'
  }

  function TrimLeft(s: string): (t: string) {
    if s != "" && IsSpace(s[0]) then TrimLeft(s[1..]) else s
  }

  function TrimRight(s: string): (t: string) {
    if s != "" && IsSpace(s[|s| - 1]) then TrimRight(s[..|s| - 1]) else s
  }

  function TrimSpace(s: string): (t: string) {
    TrimRight(TrimLeft(s))
  }

  lemma {:induction false} NothingToTrim(s: string)
    requires forall c <- s :: !IsSpace(c)
    ensures TrimSpace(s) == s
  {
  }

  //
  // Decimal numbers
  //

  function Digit(n: nat): (c: char)
    requires n < 10
    ensures IsDigit(c)
  {
    '0' + n as char
  }

  function DigitValue(c: char): (n: nat)
    requires IsDigit(c)
  {
    c as int - '0' as int
  }

  /** Itoa */
  function Decimal(n: nat): (s: string)
    ensures s != "" && forall c <- s :: IsDigit(c)
  {
    if n < 10 then [Digit(n)] else Decimal(n / 10) + [Digit(n % 10)]
  }

  function Value(s: string): (n: nat)
    requires forall c <- s :: IsDigit(c)
  {
    if s == "" then 0
    else
      assert s[|s| - 1] in s;
      Value(s[..|s| - 1]) * 10 + DigitValue(s[|s| - 1])
  }

  lemma {:induction false} DecimalValue(n: nat)
    ensures Value(Decimal(n)) == n
  {
    if n >= 10 {
      DecimalValue(n / 10);
      assert Decimal(n)[..|Decimal(n)| - 1] == Decimal(n / 10);
    }
  }

  /** ParseUint in base 10 for numbers of at most max. */
  function ParseUint(s: string, max: nat): (r: Option<nat>) {
    if s == "" || exists c <- s :: !IsDigit(c) then None
    else if Value(s) > max then None
    else Some(Value(s))
  }

  lemma {:induction false} ParseDecimal(n: nat, max: nat)
    requires n <= max
    ensures ParseUint(Decimal(n), max) == Some(n) && TrimSpace(Decimal(n)) == Decimal(n)
  {
    DecimalValue(n);
    NothingToTrim(Decimal(n));
  }

  //
  // SplitOn and join
  //

  function SplitOn(s: string, sep: char): (parts: seq<string>)
    ensures parts != []
  {
    if s == "" then [""]
    else
      var rest := SplitOn(s[1..], sep);
      if s[0] == sep then [""] + rest else [[s[0]] + rest[0]] + rest[1..]
  }

  lemma {:induction false} SplitNone(s: string, sep: char)
    requires sep !in s
    ensures SplitOn(s, sep) == [s]
  {
    if s != "" {
      SplitNone(s[1..], sep);
      assert [s[0]] + s[1..] == s;
    }
  }

  lemma {:induction false} SplitFirst(a: string, rest: string, sep: char)
    requires sep !in a
    ensures SplitOn(a + [sep] + rest, sep) == [a] + SplitOn(rest, sep)
  {
    var s := a + [sep] + rest;
    if a == "" {
      assert s[1..] == rest;
    } else {
      SplitFirst(a[1..], rest, sep);
      assert s[1..] == a[1..] + [sep] + rest;
      assert [a[0]] + a[1..] == a;
    }
  }

  /** Numbers in decimal with dashes between them. */
  function Join(ns: seq<nat>): (s: string) {
    if ns == [] then "" else if |ns| == 1 then Decimal(ns[0]) else Decimal(ns[0]) + ['-'] + Join(ns[1..])
  }

  lemma {:induction false} JoinCharacters(ns: seq<nat>)
    ensures forall c <- Join(ns) :: IsDigit(c) || c == '-'
  {
    if |ns| > 1 {
      JoinCharacters(ns[1..]);
    }
  }

  function Decimals(ns: seq<nat>): (ss: seq<string>) {
    if ns == [] then [] else [Decimal(ns[0])] + Decimals(ns[1..])
  }

  lemma {:induction false} SplitJoin(ns: seq<nat>)
    requires ns != []
    ensures SplitOn(Join(ns), '-') == Decimals(ns)
  {
    if |ns| == 1 {
      SplitNone(Decimal(ns[0]), '-');
      assert ns[1..] == [];
    } else {
      SplitFirst(Decimal(ns[0]), Join(ns[1..]), '-');
      SplitJoin(ns[1..]);
    }
  }

  /** The parts of a list, white space and empty parts dropped. */
  function ParseParts(parts: seq<string>, max: nat): (r: Option<seq<nat>>) {
    if parts == [] then Some([])
    else
      var part := TrimSpace(parts[0]);
      if part == "" then ParseParts(parts[1..], max)
      else if ParseUint(part, max).None? then None
      else match ParseParts(parts[1..], max)
        case None => None
        case Some(ns) => Some([ParseUint(part, max).value] + ns)
  }

  /** parseU16List */
  function ParseList(s: string): (r: Option<seq<nat>>) {
    if TrimSpace(s) == "" then Some([]) else ParseParts(SplitOn(s, '-'), 0xffff)
  }

  lemma {:induction false} ParseDecimals(ns: seq<nat>, max: nat)
    requires forall n <- ns :: n <= max
    ensures ParseParts(Decimals(ns), max) == Some(ns)
  {
    hide Decimal, TrimSpace, ParseUint;
    if ns != [] {
      assert ns[0] in ns;
      ParseDecimal(ns[0], max);
      NotEmpty(ns[0]);
      assert forall n <- ns[1..] :: n in ns;
      ParseDecimals(ns[1..], max);
      assert [ns[0]] + ns[1..] == ns;
    }
  }

  lemma {:induction false} NotEmpty(n: nat)
    ensures Decimal(n) != ""
  {
  }

  /** Parsing a joined list gives the list. */
  lemma {:induction false} ListRoundTrip(ns: seq<nat>)
    requires forall n <- ns :: n <= 0xffff
    ensures ParseList(Join(ns)) == Some(ns)
  {
    hide Decimal, SplitOn, ParseParts, TrimLeft, TrimRight;
    JoinCharacters(ns);
    NothingToTrim(Join(ns));
    if ns != [] {
      SplitJoin(ns);
      ParseDecimals(ns, 0xffff);
      NotEmpty(ns[0]);
    }
  }
}

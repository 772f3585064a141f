/** Decimal text as written by std::to_string and read by std::stoull and std::stoi. */
module Decimal {
  import opened Basics

  predicate IsDigit(c: char) {
    '0' <= c <= '9'
  }

  function Digit(d: nat): (c: char)
    requires d < 10
    ensures IsDigit(c) && Value(c) == d
  {
    "0123456789"[d]
  }

  function Value(c: char): (d: nat)
    requires IsDigit(c)
    ensures d < 10
  {
    (c as int) - ('0' as int)
  }

  predicate AllDigits(s: string) {
    forall i | 0 <= i < |s| :: IsDigit(s[i])
  }

  function Print(n: nat): string {
    if n < 10 then [Digit(n)] else Print(n / 10) + [Digit(n % 10)]
  }

  function Number(s: string): nat
    requires AllDigits(s)
  {
    if s == [] then 0 else 10 * Number(s[..|s| - 1]) + Value(s[|s| - 1])
  }

  function LeadingDigits(s: string): (k: nat)
    ensures k <= |s| && AllDigits(s[..k]) && (k < |s| ==> !IsDigit(s[k]))
  {
    if s == [] || !IsDigit(s[0]) then 0
    else
      var k := LeadingDigits(s[1..]);
      assert s[..k + 1] == [s[0]] + s[1..][..k];
      k + 1
  }

  predicate IsSpace(c: char) {
    c == ' ' || '\t' <= c <= '\r'
  }

  predicate AllSpaces(s: string) {
    forall i | 0 <= i < |s| :: IsSpace(s[i])
  }

  function SkipSpaces(s: string): string {
    if s != [] && IsSpace(s[0]) then SkipSpaces(s[1..]) else s
  }

  /** White space, an optional sign and digits, as strtol and strtoull read them: whether the sign is a
      minus and the number, or none without a digit. */
  function Scan(s: string): Option<(bool, nat)> {
    var t := SkipSpaces(s);
    var signed := t != [] && (t[0] == '-' || t[0] == '+');
    var digits := if signed then t[1..] else t;
    var k := LeadingDigits(digits);
    if k == 0 then None else Some((signed && t[0] == '-', Number(digits[..k])))
  }

  /** Nothing to read, or a number of 2^64 or more, throws; a minus negates modulo 2^64. */
  function Stoull(s: string): Outcome<u64> {
    match Scan(s)
    case None => Throws
    case Some((negative, n)) => if n >= TWO_64 then Throws else Ok(if negative then (TWO_64 - n) % TWO_64 else n)
  }

  predicate IsInt(i: int) {
    -TWO_31 <= i < TWO_31
  }

  /** Nothing to read, or a number out of the range of int, throws. */
  function Stoi(s: string): Outcome<int> {
    match Scan(s)
    case None => Throws
    case Some((negative, n)) =>
      var v: int := n;
      var i := if negative then -v else v;
      if IsInt(i) then Ok(i) else Throws
  }

  function PrintInt(i: int): string {
    if i < 0 then "-" + Print(-i) else Print(i)
  }

  lemma {:induction false} PrintIsDecimal(n: nat)
    ensures Print(n) != [] && AllDigits(Print(n)) && Number(Print(n)) == n
  {
    if n >= 10 {
      PrintIsDecimal(n / 10);
      assert Print(n)[..|Print(n)| - 1] == Print(n / 10);
    }
  }

  /** The digits lead as far as they go. */
  lemma {:induction false} DigitsLead(s: string, rest: string)
    requires AllDigits(s) && (rest != [] ==> !IsDigit(rest[0]))
    ensures LeadingDigits(s + rest) == |s|
    decreases |s|
  {
    if s == [] {
      assert s + rest == rest;
    } else {
      assert (s + rest)[0] == s[0] && (s + rest)[1..] == s[1..] + rest;
      DigitsLead(s[1..], rest);
    }
  }

  lemma {:induction false} SpacesSkipped(spaces: string, t: string)
    requires AllSpaces(spaces) && (t == [] || !IsSpace(t[0]))
    ensures SkipSpaces(spaces + t) == t
    decreases |spaces|
  {
    if spaces == [] {
      assert spaces + t == t;
    } else {
      assert (spaces + t)[0] == spaces[0] && (spaces + t)[1..] == spaces[1..] + t;
      SpacesSkipped(spaces[1..], t);
    }
  }

  predicate IsSign(s: string) {
    s == "" || s == "+" || s == "-"
  }

  /** After spaces and a sign the leading digits are read, and nothing else. */
  lemma ScanReads(spaces: string, sign: string, digits: string, rest: string)
    requires AllSpaces(spaces) && IsSign(sign) && AllDigits(digits) && (rest != [] ==> !IsDigit(rest[0]))
    requires digits == [] && sign == "" && rest != [] ==> !IsSpace(rest[0]) && rest[0] != '+' && rest[0] != '-'
    ensures Scan(spaces + (sign + (digits + rest))) == if digits == [] then None else Some((sign == "-", Number(digits)))
  {
    var body := digits + rest;
    var t := sign + body;
    SpacesSkipped(spaces, t);
    DigitsLead(digits, rest);
    assert body[..|digits|] == digits;
    if sign == "" {
      assert t == body;
    } else {
      assert t[1..] == body;
    }
  }

  /** A number parses to itself, or with a minus to its negation modulo 2^64, if it is below 2^64, whatever
      white space stands before it and whatever follows that is not a digit; any other number throws. */
  lemma StoullExactly(spaces: string, sign: string, n: nat, rest: string)
    requires AllSpaces(spaces) && IsSign(sign) && (rest != [] ==> !IsDigit(rest[0]))
    ensures Stoull(spaces + (sign + (Print(n) + rest))) ==
      if n >= 0x1_0000_0000_0000_0000 then Throws else Ok(if sign == "-" && n > 0 then 0x1_0000_0000_0000_0000 - n else n)
  {
    PrintIsDecimal(n);
    ScanReads(spaces, sign, Print(n), rest);
  }

  /** The same in the range of int. */
  lemma StoiExactly(spaces: string, sign: string, n: nat, rest: string)
    requires AllSpaces(spaces) && IsSign(sign) && (rest != [] ==> !IsDigit(rest[0]))
    ensures var v: int := n; var i := if sign == "-" then -v else v;
      Stoi(spaces + (sign + (Print(n) + rest))) == if -0x8000_0000 <= i < 0x8000_0000 then Ok(i) else Throws
  {
    PrintIsDecimal(n);
    ScanReads(spaces, sign, Print(n), rest);
  }

  /** Without a digit after the spaces and the sign both throw. */
  lemma NothingToRead(spaces: string, sign: string, rest: string)
    requires AllSpaces(spaces) && IsSign(sign) && (rest != [] ==> !IsDigit(rest[0]))
    requires sign == "" && rest != [] ==> !IsSpace(rest[0]) && rest[0] != '+' && rest[0] != '-'
    ensures Stoull(spaces + (sign + rest)) == Throws && Stoi(spaces + (sign + rest)) == Throws
  {
    ScanReads(spaces, sign, "", rest);
    assert "" + rest == rest;
  }

  lemma StoullRoundTrip(n: u64)
    ensures Stoull(Print(n)) == Ok(n)
  {
    StoullExactly("", "", n, "");
    assert "" + ("" + (Print(n) + "")) == Print(n);
  }

  lemma StoiRoundTrip(i: int)
    requires IsInt(i)
    ensures Stoi(PrintInt(i)) == Ok(i) && PrintInt(i) != "" && (PrintInt(i)[0] == '-' <==> i < 0)
  {
    var n := if i < 0 then -i else i;
    var sign := if i < 0 then "-" else "";
    PrintIsDecimal(n);
    StoiExactly("", sign, n, "");
    assert "" + (sign + (Print(n) + "")) == PrintInt(i);
    assert IsDigit(Print(n)[0]);
  }

  /** Printed numbers consist of digits and a sign. */
  lemma PrintIntHasNo(i: int, c: char)
    requires !IsDigit(c) && c != '-'
    ensures c !in PrintInt(i)
  {
    PrintIsDecimal(if i < 0 then -i else i);
  }
}

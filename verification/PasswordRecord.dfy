/** The stored password record (security.cpp): iteration count, derived key and salt, separated by
    '&', the last two in the Base16 alphabet of section 8 of RFC 4648. The derivation is PBKDF2 of
    section 5.2 of RFC 8018, left open as a function `kdf`; the random salt is an argument. */
module PasswordRecord {
  import opened Basics
  import Decimal

  type Kdf = (string, seq<byte>, int, nat) -> seq<byte>

  const KEY_LEN: nat := 64

  datatype Fields = Fields(iter: int, key: seq<byte>, salt: seq<byte>)

  function HexDigit(d: nat): (c: char)
    requires d < 16
    ensures Unhex(c) == Some(d) && c != '&' && (c as int) == if d < 10 then 48 + d else 55 + d
  {
    "0123456789ABCDEF"[d]
  }

  /** Both cases are accepted. */
  function Unhex(c: char): (d: Option<nat>)
    ensures d.Some? ==> d.value < 16
  {
    if '0' <= c <= '9' then Some((c as int) - ('0' as int))
    else if 'A' <= c <= 'F' then Some((c as int) - ('A' as int) + 10)
    else if 'a' <= c <= 'f' then Some((c as int) - ('a' as int) + 10)
    else None
  }

  function Bin2Hex(bin: seq<byte>): string {
    if bin == [] then [] else [HexDigit(bin[0] / 16), HexDigit(bin[0] % 16)] + Bin2Hex(bin[1..])
  }

  /** A character outside the alphabet, or half a byte at the end, throws. */
  function Hex2Bin(hex: string): Outcome<seq<byte>> {
    if hex == [] then Ok([])
    else if |hex| == 1 then Throws
    else
      match (Unhex(hex[0]), Unhex(hex[1]))
      case (Some(hi), Some(lo)) =>
        (match Hex2Bin(hex[2..])
         case Ok(bin) => Ok([16 * hi + lo] + bin)
         case _ => Throws)
      case _ => Throws
  }

  /** The first position of c from `from` on, or |s|. */
  function Find(s: string, c: char, from: nat): (k: nat)
    requires from <= |s|
    ensures from <= k <= |s| && (forall i | from <= i < k :: s[i] != c) && (k < |s| ==> s[k] == c)
    decreases |s| - from
  {
    if from == |s| || s[from] == c then from else Find(s, c, from + 1)
  }

  function HashPassword(kdf: Kdf, code: string, salt: seq<byte>, iter: int): string {
    Decimal.PrintInt(iter) + "&" + Bin2Hex(kdf(code, salt, iter, KEY_LEN)) + "&" + Bin2Hex(salt)
  }

  /** The parsing half of Verify: none for a record without two separators. */
  function Parse(stored: string): Outcome<Option<Fields>> {
    var pos1 := Find(stored, '&', 0);
    if pos1 == |stored| then Ok(None)
    else
      var pos2 := Find(stored, '&', pos1 + 1);
      if pos2 == |stored| then Ok(None)
      else
        ParseParts(stored[..pos1], stored[pos1 + 1..pos2], stored[pos2 + 1..])
  }

  function ParseParts(iter: string, key: string, salt: string): (r: Outcome<Option<Fields>>)
    ensures r != Ok(None)
  {
    match (Decimal.Stoi(iter), Hex2Bin(salt), Hex2Bin(key))
    case (Ok(i), Ok(s), Ok(k)) => Ok(Some(Fields(i, k, s)))
    case _ => Throws
  }

  function Verify(kdf: Kdf, code: string, stored: string): Outcome<bool> {
    match Parse(stored)
    case Ok(Some(f)) => Ok(kdf(code, f.salt, f.iter, |f.key|) == f.key)
    case Ok(None) => Ok(false)
    case _ => Throws
  }

  lemma {:induction false} HexRoundTrip(bin: seq<byte>)
    ensures Hex2Bin(Bin2Hex(bin)) == Ok(bin) && '&' !in Bin2Hex(bin)
  {
    if bin != [] {
      HexRoundTrip(bin[1..]);
      var h := Bin2Hex(bin);
      assert h[2..] == Bin2Hex(bin[1..]);
      assert bin == [bin[0]] + bin[1..];
    }
  }

  function Upper(c: char): char {
    if 'a' <= c <= 'f' then ((c as int) - 32) as char else c
  }

  lemma UnhexExactly(c: char, d: nat)
    requires d < 16
    ensures Unhex(c) == Some(d) <==> Upper(c) == HexDigit(d)
  {
  }

  lemma {:induction false} HexLength(bin: seq<byte>)
    ensures |Bin2Hex(bin)| == 2 * |bin|
  {
    if bin != [] {
      HexLength(bin[1..]);
    }
  }

  function UpperCase(s: string): string {
    if s == [] then [] else [Upper(s[0])] + UpperCase(s[1..])
  }

  lemma UpperPair(s: string)
    requires |s| >= 2
    ensures UpperCase(s) == [Upper(s[0]), Upper(s[1])] + UpperCase(s[2..])
  {
    assert s[1..][1..] == s[2..];
  }

  /** A text decodes to exactly the bytes whose encoding it is, in capital or small letters; any other throws. */
  lemma {:induction false} HexDecodesExactly(hex: string, bin: seq<byte>)
    ensures Hex2Bin(hex) == Ok(bin) <==> UpperCase(hex) == Bin2Hex(bin)
    decreases |hex|
  {
    HexLength(bin);
    if |hex| == 1 {
      assert |UpperCase(hex)| == 1;
    } else if hex != [] {
      UpperPair(hex);
      if bin != [] {
        HexDecodesExactly(hex[2..], bin[1..]);
        DecodesPair(hex, bin);
        EncodesPair(hex, bin);
        UnhexExactly(hex[0], bin[0] / 16);
        UnhexExactly(hex[1], bin[0] % 16);
      }
    }
  }

  lemma DecodesPair(hex: string, bin: seq<byte>)
    requires |hex| >= 2 && bin != []
    ensures Hex2Bin(hex) == Ok(bin) <==>
      Unhex(hex[0]) == Some(bin[0] / 16) && Unhex(hex[1]) == Some(bin[0] % 16) && Hex2Bin(hex[2..]) == Ok(bin[1..])
  {
    assert bin == [bin[0]] + bin[1..];
    assert 16 * (bin[0] / 16) + bin[0] % 16 == bin[0];
    if Hex2Bin(hex) == Ok(bin) {
      var hi, lo, rest := Unhex(hex[0]).value, Unhex(hex[1]).value, Hex2Bin(hex[2..]).value;
      assert bin == [16 * hi + lo] + rest;
      assert bin[0] == 16 * hi + lo && bin[1..] == rest;
    }
  }

  lemma EncodesPair(hex: string, bin: seq<byte>)
    requires |hex| >= 2 && bin != []
    ensures UpperCase(hex) == Bin2Hex(bin) <==>
      Upper(hex[0]) == HexDigit(bin[0] / 16) && Upper(hex[1]) == HexDigit(bin[0] % 16) && UpperCase(hex[2..]) == Bin2Hex(bin[1..])
  {
    UpperPair(hex);
    Cut([Upper(hex[0]), Upper(hex[1])], UpperCase(hex[2..]), [HexDigit(bin[0] / 16), HexDigit(bin[0] % 16)], Bin2Hex(bin[1..]));
  }

  lemma Cut(a: string, s: string, b: string, t: string)
    requires |a| == |b|
    ensures a + s == b + t <==> a == b && s == t
  {
    assert (a + s)[..|a|] == a && (a + s)[|a|..] == s;
    assert (b + t)[..|a|] == b && (b + t)[|a|..] == t;
  }

  lemma {:induction false} FindSeparator(a: string, b: string, from: nat)
    requires from <= |a| && forall i | from <= i < |a| :: a[i] != '&'
    ensures Find(a + "&" + b, '&', from) == |a|
    decreases |a| - from
  {
    var s := a + "&" + b;
    if from < |a| {
      assert s[from] == a[from];
      FindSeparator(a, b, from + 1);
    } else {
      assert s[from] == '&';
    }
  }

  /** Splitting at the first two separators gives back the three parts. */
  lemma SplitsBack(a: string, b: string, c: string)
    requires '&' !in a && '&' !in b
    ensures var s := a + "&" + b + "&" + c; var p := Find(s, '&', 0);
      p == |a| && Find(s, '&', p + 1) == |a| + 1 + |b|
      && s[..p] == a && s[p + 1..|a| + 1 + |b|] == b && s[|a| + 1 + |b| + 1..] == c
  {
    var s := a + "&" + b + "&" + c;
    assert s == a + "&" + (b + "&" + c);
    FindSeparator(a, b + "&" + c, 0);
    var ab := a + "&" + b;
    assert s == ab + "&" + c;
    assert forall i | |a| + 1 <= i < |ab| :: ab[i] == b[i - |a| - 1];
    FindSeparator(ab, c, |a| + 1);
  }

  lemma ParsesByParts(a: string, b: string, c: string)
    requires '&' !in a && '&' !in b
    ensures Parse(a + "&" + b + "&" + c) == ParseParts(a, b, c)
  {
    SplitsBack(a, b, c);
    ParsesAt(a + "&" + b + "&" + c, |a|, |a| + 1 + |b|, a, b, c);
  }

  lemma ParsesAt(s: string, p: nat, q: nat, a: string, b: string, c: string)
    requires p < q < |s| && Find(s, '&', 0) == p && Find(s, '&', p + 1) == q
    requires s[..p] == a && s[p + 1..q] == b && s[q + 1..] == c
    ensures Parse(s) == ParseParts(a, b, c)
  {
  }

  lemma PartsParseBack(f: Fields)
    requires Decimal.IsInt(f.iter)
    ensures ParseParts(Decimal.PrintInt(f.iter), Bin2Hex(f.key), Bin2Hex(f.salt)) == Ok(Some(f))
  {
    Decimal.StoiRoundTrip(f.iter);
    HexRoundTrip(f.key);
    HexRoundTrip(f.salt);
  }

  /** A record parses back to the iteration count, key and salt it was made from. */
  lemma RecordParsesBack(kdf: Kdf, code: string, salt: seq<byte>, iter: int)
    requires Decimal.IsInt(iter)
    ensures Parse(HashPassword(kdf, code, salt, iter)) == Ok(Some(Fields(iter, kdf(code, salt, iter, 64), salt)))
  {
    var key := kdf(code, salt, iter, KEY_LEN);
    Decimal.PrintIntHasNo(iter, '&');
    HexRoundTrip(key);
    ParsesByParts(Decimal.PrintInt(iter), Bin2Hex(key), Bin2Hex(salt));
    PartsParseBack(Fields(iter, key, salt));
  }

  /** A password is accepted against a record exactly when the two derived keys agree; the password
      the record was made from always is. */
  lemma AcceptsExactly(kdf: Kdf, code: string, salt: seq<byte>, iter: int, attempt: string)
    requires 0 < iter && Decimal.IsInt(iter) && |kdf(code, salt, iter, 64)| == 64
    ensures Verify(kdf, attempt, HashPassword(kdf, code, salt, iter))
         == Ok(kdf(attempt, salt, iter, 64) == kdf(code, salt, iter, 64))
    ensures Verify(kdf, code, HashPassword(kdf, code, salt, iter)) == Ok(true)
  {
    RecordParsesBack(kdf, code, salt, iter);
  }

  ghost predicate Lengths(kdf: Kdf) {
    forall code: string, salt: seq<byte>, iter: int, n: nat :: |kdf(code, salt, iter, n)| == n
  }

  /** Acceptance means something exactly when the record's key field is not empty: an empty one is met by
      every password under every derivation, any other is missed by every password under some derivation. */
  lemma AcceptsAllExactly(stored: string, f: Fields)
    requires Parse(stored) == Ok(Some(f))
    ensures (forall kdf: Kdf, code: string | Lengths(kdf) :: Verify(kdf, code, stored) == Ok(true)) <==> f.key == []
    ensures f.key != [] ==> exists kdf: Kdf :: Lengths(kdf) && forall code: string :: Verify(kdf, code, stored) == Ok(false)
  {
    if f.key == [] {
      forall kdf: Kdf, code: string | Lengths(kdf)
        ensures Verify(kdf, code, stored) == Ok(true)
      {
        assert |kdf(code, f.salt, f.iter, 0)| == 0;
      }
    } else {
      var other: byte := if f.key[0] == 0 then 1 else 0;
      var kdf: Kdf := (code: string, salt: seq<byte>, iter: int, n: nat) => seq(n, _ => other);
      assert Lengths(kdf);
      forall code: string
        ensures Verify(kdf, code, stored) == Ok(false)
      {
        assert kdf(code, f.salt, f.iter, |f.key|)[0] == other;
      }
      assert Verify(kdf, "", stored) == Ok(false);
    }
  }

  /** How often c occurs from `from` on. */
  function Count(s: string, c: char, from: nat): nat
    requires from <= |s|
    decreases |s| - from
  {
    if from == |s| then 0 else (if s[from] == c then 1 else 0) + Count(s, c, from + 1)
  }

  lemma {:induction false} CountFromFound(s: string, c: char, from: nat)
    requires from <= |s|
    ensures Count(s, c, from) == Count(s, c, Find(s, c, from))
    decreases |s| - from
  {
    if from < |s| && s[from] != c {
      CountFromFound(s, c, from + 1);
    }
  }

  /** A record is refused as malformed, whatever the password and without throwing, exactly when it has
      fewer than two separators. */
  lemma MalformedExactly(kdf: Kdf, code: string, stored: string)
    ensures Parse(stored) == Ok(None) <==> Count(stored, '&', 0) < 2
    ensures Count(stored, '&', 0) < 2 ==> Verify(kdf, code, stored) == Ok(false)
  {
    CountFromFound(stored, '&', 0);
    var p := Find(stored, '&', 0);
    if p < |stored| {
      CountFromFound(stored, '&', p + 1);
    }
  }
}

/**
 Station addresses as text: a tolerant parser, a canonical printer, and the order of addresses.
 */
module MacAddressText {
  import opened Simulation

  type Octet = b: nat | b < 256
  type Nibble = n: nat | n < 16

  const MAC_ADDRESS_BYTES := 6

  // ---------- Characters ----------

  predicate IsDigit(c: char) {
    '0' <= c <= '9'
  }

  predicate IsLower(c: char) {
    'a' <= c <= 'z'
  }

  predicate IsHexDigit(c: char) {
    IsDigit(c) || 'a' <= c <= 'f' || 'A' <= c <= 'F'
  }

  predicate IsSeparator(c: char) {
    c == ' ' || c == ':' || c == '-'
  }

  function HexValue(c: char): (n: Nibble)
    requires IsHexDigit(c)
  {
    if IsDigit(c) then c as int - '0' as int
    else if IsLower(c) then c as int - 'a' as int + 10
    else c as int - 'A' as int + 10
  }

  /** The digit with which a value is printed. */
  function HexChar(n: Nibble): char {
    "0123456789ABCDEF"[n]
  }

  function Upper(c: char): char {
    if IsLower(c) then (c as int - 'a' as int + 'A' as int) as char else c
  }

  lemma DigitValue(n: Nibble)
    ensures IsHexDigit(HexChar(n)) && HexValue(HexChar(n)) == n
  {
  }

  lemma ValueDigit(c: char)
    requires IsHexDigit(c)
    ensures HexChar(HexValue(c)) == Upper(c)
  {
  }

  // ---------- Reading ----------

  /** The hexadecimal digits in a string. */
  function HexChars(s: string): (r: string)
    ensures forall k :: 0 <= k < |r| ==> IsHexDigit(r[k])
  {
    if s == [] then [] else (if IsHexDigit(s[0]) then [s[0]] else []) + HexChars(s[1..])
  }

  /** Their values. */
  function Digits(s: string): seq<Nibble> {
    if s == [] then [] else DigitOf(s[0]) + Digits(s[1..])
  }

  function DigitOf(c: char): seq<Nibble> {
    if IsHexDigit(c) then [HexValue(c)] else []
  }

  predicate Spells(c: string, d: seq<Nibble>) {
    |d| == |c| && forall k :: 0 <= k < |c| ==> IsHexDigit(c[k]) && d[k] == HexValue(c[k])
  }

  lemma SpellsMore(x: char, c: string, d: seq<Nibble>)
    requires IsHexDigit(x) && Spells(c, d)
    ensures Spells([x] + c, [HexValue(x)] + d)
  {
  }

  lemma {:induction false} DigitsOfChars(s: string)
    ensures Spells(HexChars(s), Digits(s))
  {
    if s != [] {
      DigitsOfChars(s[1..]);
      if IsHexDigit(s[0]) {
        SpellsMore(s[0], HexChars(s[1..]), Digits(s[1..]));
      } else {
        assert HexChars(s) == HexChars(s[1..]) && Digits(s) == Digits(s[1..]);
      }
    }
  }

  lemma DigitsCons(c: char, s: string)
    ensures Digits([c] + s) == DigitOf(c) + Digits(s)
  {
    assert ([c] + s)[1..] == s;
  }

  lemma Associative<T>(a: seq<T>, b: seq<T>, c: seq<T>)
    ensures (a + b) + c == a + (b + c)
  {
  }

  lemma {:induction false} DigitsConcat(s: string, t: string)
    ensures Digits(s + t) == Digits(s) + Digits(t)
  {
    if s == [] {
      assert s + t == t;
    } else {
      var c, rest := s[0], s[1..];
      DigitsConcat(rest, t);
      DigitsCons(c, rest + t);
      Associative([c], rest, t);
      Associative(DigitOf(c), Digits(rest), Digits(t));
      assert s == [c] + rest;
    }
  }

  function Join(high: Nibble, low: Nibble): Octet {
    var h: int := high;
    16 * h + low
  }

  /** Octet k of a row of digits: a pair of digits, or zero where there is no pair. */
  function OctetAt(d: seq<Nibble>, k: nat): Octet {
    if 2 * k + 1 < |d| then Join(d[2 * k], d[2 * k + 1]) else 0
  }

  function Octets(d: seq<Nibble>, size: nat): (r: seq<Octet>)
    ensures |r| == size && forall k :: 0 <= k < size ==> r[k] == OctetAt(d, k)
  {
    seq(size, k requires 0 <= k => OctetAt(d, k))
  }

  /** Hex digits and separators only, and twelve digits. */
  predicate Accepted(s: string) {
    && (forall k :: 0 <= k < |s| ==> IsHexDigit(s[k]) || IsSeparator(s[k]))
    && |Digits(s)| == 2 * MAC_ADDRESS_BYTES
  }

  function Parse(s: string): Option<seq<Octet>> {
    if Accepted(s) then Some(Octets(Digits(s), MAC_ADDRESS_BYTES)) else None
  }

  // ---------- What is accepted, character by character ----------

  /** The character stands for the digit, in either case. */
  predicate Shows(c: char, n: Nibble) {
    c == "0123456789ABCDEF"[n] || c == "0123456789abcdef"[n]
  }

  /** The string spells the digits, in order and in either case, with spaces, colons and hyphens anywhere. */
  predicate Spelling(s: string, d: seq<Nibble>) {
    if s == [] then d == []
    else if s[0] == ' ' || s[0] == ':' || s[0] == '-' then Spelling(s[1..], d)
    else d != [] && Shows(s[0], d[0]) && Spelling(s[1..], d[1..])
  }

  /** The string shows the digits, in order and in either case, among other characters. */
  ghost predicate Showing(s: string, d: seq<Nibble>) {
    if s == [] then d == []
    else if exists n: Nibble :: Shows(s[0], n) then d != [] && Shows(s[0], d[0]) && Showing(s[1..], d[1..])
    else Showing(s[1..], d)
  }

  lemma ShowsExactly(c: char, n: Nibble)
    ensures Shows(c, n) <==> IsHexDigit(c) && HexValue(c) == n
  {
  }

  /** A character counts as a digit exactly if it shows one. */
  lemma HexExactly(c: char)
    ensures IsHexDigit(c) <==> exists n: Nibble :: Shows(c, n)
  {
    if IsHexDigit(c) {
      ShowsExactly(c, HexValue(c));
    }
    forall n: Nibble
      ensures Shows(c, n) ==> IsHexDigit(c)
    {
      ShowsExactly(c, n);
    }
  }

  lemma {:induction false} ShowingExactly(s: string, d: seq<Nibble>)
    ensures Showing(s, d) <==> d == Digits(s)
  {
    if s != [] {
      HexExactly(s[0]);
      if IsHexDigit(s[0]) {
        if d != [] {
          ShowsExactly(s[0], d[0]);
          ShowingExactly(s[1..], d[1..]);
          assert d == [d[0]] + d[1..];
        }
      } else {
        ShowingExactly(s[1..], d);
      }
    }
  }

  lemma {:induction false} SpellingExactly(s: string, d: seq<Nibble>)
    ensures Spelling(s, d) <==> d == Digits(s) && forall k :: 0 <= k < |s| ==> IsHexDigit(s[k]) || IsSeparator(s[k])
  {
    if s != [] {
      var rest := s[1..];
      assert forall k :: 0 < k < |s| ==> s[k] == rest[k - 1];
      assert forall k :: 0 <= k < |rest| ==> rest[k] == s[k + 1];
      if IsSeparator(s[0]) {
        SpellingExactly(rest, d);
      } else {
        HexExactly(s[0]);
        if d != [] {
          ShowsExactly(s[0], d[0]);
          SpellingExactly(rest, d[1..]);
          assert d == [d[0]] + d[1..];
        }
      }
    }
  }

  /** The octets that pairs of digits make, high digit first. */
  predicate InPairs(a: seq<Octet>, d: seq<Nibble>) {
    |d| == 2 * |a| && forall k :: 0 <= k < |a| ==> Pairs(a[k], d[2 * k], d[2 * k + 1])
  }

  predicate Pairs(b: Octet, high: Nibble, low: Nibble) {
    var h: int, l: int := high, low;
    b == 16 * h + l
  }

  /**
   A string is accepted exactly if it spells twelve digits, in either case and with any separators anywhere, and is
   then the address of which they are the digits.
   */
  lemma ParseExactly(s: string, d: seq<Nibble>)
    ensures Parse(s).Some? ==> |Digits(s)| == 12 && Spelling(s, Digits(s))
    ensures |d| == 12 && Spelling(s, d) ==> Parse(s).Some? && |Parse(s).value| == 6 && InPairs(Parse(s).value, d)
  {
    SpellingExactly(s, Digits(s));
    SpellingExactly(s, d);
  }

  // ---------- Printing ----------

  function Pair(b: Octet): string {
    [HexChar(b / 16), HexChar(b % 16)]
  }

  /** Octets in upper case, joined by hyphens. */
  function Text(a: seq<Octet>): string {
    if a == [] then ""
    else
      var n := |a| - 1;
      (if n == 0 then "" else Text(a[..n]) + "-") + Pair(a[n])
  }

  lemma TextAppend(a: seq<Octet>, b: Octet)
    ensures Text(a + [b]) + "-" == (if a == [] then "" else Text(a) + "-") + (Pair(b) + "-")
  {
    assert (a + [b])[..|a|] == a;
  }

  /** The first `n` pairs of characters, joined by hyphens. */
  function Hyphenated(c: string, n: nat): string
    requires 2 * n <= |c|
  {
    if n == 0 then "" else (if n == 1 then "" else Hyphenated(c, n - 1) + "-") + c[2 * n - 2..2 * n]
  }

  function UpperCase(c: string): (r: string)
    ensures |r| == |c| && forall k :: 0 <= k < |c| ==> r[k] == Upper(c[k])
  {
    seq(|c|, k requires 0 <= k < |c| => Upper(c[k]))
  }

  /** The canonical spelling of an accepted string. */
  function Canonical(s: string): string
    requires |HexChars(s)| == 2 * MAC_ADDRESS_BYTES
  {
    Hyphenated(UpperCase(HexChars(s)), MAC_ADDRESS_BYTES)
  }

  // ---------- Round trip ----------

  /** The digits of a row of octets. */
  function Nibbles(a: seq<Octet>): (d: seq<Nibble>)
    ensures |d| == 2 * |a|
  {
    if a == [] then []
    else
      var n := |a| - 1;
      Nibbles(a[..n]) + [a[n] / 16, a[n] % 16]
  }

  lemma {:induction false} NibblesAt(a: seq<Octet>, k: nat)
    requires k < |a|
    ensures OctetAt(Nibbles(a), k) == a[k]
  {
    var n := |a| - 1;
    if k < n {
      NibblesAt(a[..n], k);
    }
  }

  lemma DigitsOfOne(n: Nibble)
    ensures Digits([HexChar(n)]) == [n]
  {
    DigitValue(n);
    assert [HexChar(n)][1..] == [];
  }

  lemma DigitsOfPair(b: Octet)
    ensures Digits(Pair(b)) == [b / 16, b % 16]
  {
    DigitsOfOne(b / 16);
    DigitsOfOne(b % 16);
    DigitsConcat([HexChar(b / 16)], [HexChar(b % 16)]);
    assert Pair(b) == [HexChar(b / 16)] + [HexChar(b % 16)];
  }

  lemma {:induction false} DigitsOfText(a: seq<Octet>)
    ensures Digits(Text(a)) == Nibbles(a)
  {
    if a != [] {
      var n := |a| - 1;
      DigitsOfPair(a[n]);
      if n == 0 {
        assert "" + Pair(a[n]) == Pair(a[n]);
      } else {
        DigitsOfText(a[..n]);
        DigitsConcat(Text(a[..n]), "-");
        DigitsConcat(Text(a[..n]) + "-", Pair(a[n]));
        assert Digits("-") == [];
      }
    }
  }

  lemma {:induction false} TextSyntax(a: seq<Octet>)
    ensures forall k :: 0 <= k < |Text(a)| ==> IsHexDigit(Text(a)[k]) || IsSeparator(Text(a)[k])
  {
    if a != [] {
      var n := |a| - 1;
      TextSyntax(a[..n]);
      DigitValue(a[n] / 16);
      DigitValue(a[n] % 16);
    }
  }

  /** Parsing the printed form of an address gives the address back. */
  lemma ParsePrinted(a: seq<Octet>)
    requires |a| == MAC_ADDRESS_BYTES
    ensures Parse(Text(a)) == Some(a)
  {
    DigitsOfText(a);
    TextSyntax(a);
    forall k | 0 <= k < |a|
      ensures OctetAt(Nibbles(a), k) == a[k]
    {
      NibblesAt(a, k);
    }
    assert Octets(Nibbles(a), MAC_ADDRESS_BYTES) == a;
  }

  lemma DigitPair(a: Nibble, b: Nibble, c: Nibble, d: Nibble)
    requires Join(a, b) == Join(c, d)
    ensures a == c && b == d
  {
  }

  /** Two accepted strings mean the same address exactly if they have the same digits, in order. */
  lemma ParseIsDigits(s: string, t: string)
    requires Accepted(s) && Accepted(t)
    ensures Parse(s) == Parse(t) <==> Digits(s) == Digits(t)
  {
    if Parse(s) == Parse(t) {
      OctetsAreDigits(Digits(s), Digits(t));
    }
  }

  lemma SamePair(d: seq<Nibble>, e: seq<Nibble>, k: nat)
    requires 2 * k + 1 < |d| && |d| == |e| && OctetAt(d, k) == OctetAt(e, k)
    ensures d[2 * k] == e[2 * k] && d[2 * k + 1] == e[2 * k + 1]
  {
    DigitPair(d[2 * k], d[2 * k + 1], e[2 * k], e[2 * k + 1]);
  }

  lemma OctetsAreDigits(d: seq<Nibble>, e: seq<Nibble>)
    requires |d| == |e| == 2 * MAC_ADDRESS_BYTES && Octets(d, MAC_ADDRESS_BYTES) == Octets(e, MAC_ADDRESS_BYTES)
    ensures d == e
  {
    forall j | 0 <= j < |d|
      ensures d[j] == e[j]
    {
      assert Octets(d, MAC_ADDRESS_BYTES)[j / 2] == Octets(e, MAC_ADDRESS_BYTES)[j / 2];
      SamePair(d, e, j / 2);
    }
  }

  lemma PairSpelled(b: Octet, x: char, y: char)
    requires IsHexDigit(x) && IsHexDigit(y) && b == Join(HexValue(x), HexValue(y))
    ensures Pair(b) == [Upper(x), Upper(y)]
  {
    ValueDigit(x);
    ValueDigit(y);
    assert b / 16 == HexValue(x) && b % 16 == HexValue(y);
  }

  lemma PairOfDigits(d: seq<Nibble>, c: string, k: nat)
    requires Spells(c, d) && 2 * k + 1 < |d|
    ensures Pair(OctetAt(d, k)) == UpperCase(c)[2 * k..2 * k + 2]
  {
    PairSpelled(OctetAt(d, k), c[2 * k], c[2 * k + 1]);
  }

  lemma {:induction false} TextOfPairs(a: seq<Octet>, u: string, n: nat)
    requires n <= |a| && |u| == 2 * |a|
    requires forall k :: 0 <= k < |a| ==> Pair(a[k]) == u[2 * k..2 * k + 2]
    ensures Text(a[..n]) == Hyphenated(u, n)
  {
    if n > 0 {
      TextOfPairs(a, u, n - 1);
      assert a[..n][..n - 1] == a[..n - 1];
      assert Pair(a[n - 1]) == u[2 * n - 2..2 * n];
    }
  }

  /** Printing a parsed string gives its digits in upper case, in pairs, joined by hyphens. */
  lemma PrintParsed(s: string)
    requires Accepted(s)
    ensures |HexChars(s)| == 2 * MAC_ADDRESS_BYTES && Text(Parse(s).value) == Canonical(s)
  {
    DigitsOfChars(s);
    var a, c := Parse(s).value, HexChars(s);
    forall k | 0 <= k < |a|
      ensures Pair(a[k]) == UpperCase(c)[2 * k..2 * k + 2]
    {
      PairOfDigits(Digits(s), c, k);
    }
    TextOfPairs(a, UpperCase(c), MAC_ADDRESS_BYTES);
    assert a[..MAC_ADDRESS_BYTES] == a;
  }

  /** The printed form, character by character. */
  lemma {:induction false} TextExactly(a: seq<Octet>, k: nat)
    requires k < |a|
    ensures |Text(a)| == 3 * |a| - 1
    ensures Text(a)[3 * k] == "0123456789ABCDEF"[a[k] / 16] && Text(a)[3 * k + 1] == "0123456789ABCDEF"[a[k] % 16]
    ensures k + 1 < |a| ==> Text(a)[3 * k + 2] == '-'
  {
    var n := |a| - 1;
    if n > 0 {
      TextExactly(a[..n], if k < n then k else 0);
    }
  }

  // ---------- Order ----------

  /** Octets read as one number, most significant first. */
  function Number(a: seq<Octet>): nat {
    if a == [] then 0 else 256 * Number(a[..|a| - 1]) + a[|a| - 1]
  }

  /** What memcmp returns, up to its magnitude: the difference of the first octets that differ. */
  function Compare(a: seq<Octet>, b: seq<Octet>): int
    requires |a| == |b|
  {
    if a == [] then 0 else if a[0] != b[0] then a[0] - b[0] else Compare(a[1..], b[1..])
  }

  /** Comparing the last octets matters only if all before are equal. */
  lemma {:induction false} CompareLast(a: seq<Octet>, b: seq<Octet>)
    requires |a| == |b| > 0
    ensures var n := |a| - 1;
            && (Compare(a[..n], b[..n]) != 0 ==> Compare(a, b) == Compare(a[..n], b[..n]))
            && (Compare(a[..n], b[..n]) == 0 ==> Compare(a, b) + b[n] == a[n])
  {
    var n := |a| - 1;
    if n > 0 && a[0] == b[0] {
      CompareLast(a[1..], b[1..]);
      assert a[1..][..n - 1] == a[..n][1..] && b[1..][..n - 1] == b[..n][1..];
    }
  }

  /** The sign of the comparison is the order of the addresses as numbers. */
  lemma {:induction false} CompareIsNumeric(a: seq<Octet>, b: seq<Octet>)
    requires |a| == |b|
    ensures Compare(a, b) < 0 <==> Number(a) < Number(b)
    ensures Compare(a, b) == 0 <==> a == b
    ensures Number(a) == Number(b) ==> a == b
  {
    if a != [] {
      var n := |a| - 1;
      CompareIsNumeric(a[..n], b[..n]);
      CompareLast(a, b);
      assert a == a[..n] + [a[n]] && b == b[..n] + [b[n]];
    }
  }

  // ---------- The class ----------

  /** The characters before the first null. */
  function CString(buf: seq<char>): string {
    if buf == [] || buf[0] == '\0' then "" else [buf[0]] + CString(buf[1..])
  }

  lemma {:induction false} CStringPrefix(s: string, rest: seq<char>)
    requires forall k :: 0 <= k < |s| ==> s[k] != '\0'
    requires rest != [] && rest[0] == '\0'
    ensures CString(s + rest) == s
  {
    if s == [] {
      assert s + rest == rest;
    } else {
      CStringPrefix(s[1..], rest);
      assert (s + rest)[1..] == s[1..] + rest;
    }
  }

  lemma {:induction false} TextLength(a: seq<Octet>)
    ensures a != [] ==> |Text(a)| == 3 * |a| - 1
  {
    if |a| > 1 {
      TextLength(a[..|a| - 1]);
    }
  }

  /** Skipping a character, or taking one. */
  lemma DigitsFrom(s: string, i: nat)
    requires i < |s|
    ensures Digits(s[i..]) == (if IsHexDigit(s[i]) then [HexValue(s[i])] else []) + Digits(s[i + 1..])
  {
    assert s[i..][1..] == s[i + 1..];
  }

  /** Reads the next hexadecimal digit, if there is one, and moves past it. */
  method NextDigit(s: string, start: nat) returns (i: nat, value: Option<Nibble>)
    requires start <= |s|
    ensures i <= |s|
    ensures Digits(s[start..]) == (if value.Some? then [value.value] else []) + Digits(s[i..])
    ensures value.None? ==> Digits(s[i..]) == []
  {
    i := start;
    while i < |s| && !IsHexDigit(s[i])
      invariant start <= i <= |s| && Digits(s[i..]) == Digits(s[start..])
    {
      DigitsFrom(s, i);
      i := i + 1;
    }
    if i == |s| {
      return i, None;
    }
    DigitsFrom(s, i);
    value := Some(HexValue(s[i]));
    i := i + 1;
  }

  /** The digits left after `pos` pairs. */
  function Rest(d: seq<Nibble>, pos: nat): seq<Nibble> {
    if 2 * pos <= |d| then d[2 * pos..] else []
  }

  lemma RestPair(d: seq<Nibble>, pos: nat, high: Nibble, low: Nibble, tail: seq<Nibble>)
    requires Rest(d, pos) == [high] + ([low] + tail)
    ensures OctetAt(d, pos) == Join(high, low) && Rest(d, pos + 1) == tail && pos < |d| / 2
  {
    assert d[2 * pos] == Rest(d, pos)[0] && d[2 * pos + 1] == Rest(d, pos)[1];
    assert Rest(d, pos + 1) == Rest(d, pos)[2..];
  }

  lemma RestShort(d: seq<Nibble>, pos: nat)
    requires |Rest(d, pos)| < 2
    ensures OctetAt(d, pos) == 0 && Rest(d, pos + 1) == [] && |d| / 2 <= pos
  {
  }

  /** Reads the pair of digits at position `pos` of all digits `d`; zero if there is no such pair. */
  method ReadOctet(s: string, start: nat, ghost d: seq<Nibble>, ghost pos: nat)
    returns (i: nat, octet: Octet, complete: bool)
    requires start <= |s| && Digits(s[start..]) == Rest(d, pos)
    ensures i <= |s| && Digits(s[i..]) == Rest(d, pos + 1)
    ensures octet == OctetAt(d, pos) && (complete <==> pos < |d| / 2)
  {
    var high, low;
    i, high := NextDigit(s, start);
    if high.None? {
      RestShort(d, pos);
      return i, 0, false;
    }
    i, low := NextDigit(s, i);
    if low.None? {
      RestShort(d, pos);
      return i, 0, false;
    }
    RestPair(d, pos, high.value, low.value, Digits(s[i..]));
    return i, Join(high.value, low.value), true;
  }

  /** Fills the buffer with the octets spelled by the hex digits of a string; `k` counts the pairs used. */
  method HexToBin(s: string, destbuf: array<Octet>) returns (k: nat)
    modifies destbuf
    ensures destbuf[..] == Octets(Digits(s), destbuf.Length)
    ensures k == if |Digits(s)| / 2 < destbuf.Length then |Digits(s)| / 2 else destbuf.Length
    ensures Showing(s, Digits(s))
    ensures forall i :: 0 <= i < destbuf.Length ==>
              if 2 * i + 1 < |Digits(s)| then Pairs(destbuf[i], Digits(s)[2 * i], Digits(s)[2 * i + 1]) else destbuf[i] == 0
  {
    ShowingExactly(s, Digits(s));
    k := 0;
    var i: nat := 0;
    ghost var d := Digits(s);
    ghost var octets := Octets(d, destbuf.Length);
    assert s[0..] == s;
    for pos := 0 to destbuf.Length
      invariant i <= |s| && Digits(s[i..]) == Rest(d, pos)
      invariant destbuf[..pos] == octets[..pos]
      invariant k == if |d| / 2 < pos then |d| / 2 else pos
    {
      var octet, complete;
      i, octet, complete := ReadOctet(s, i, d, pos);
      destbuf[pos] := octet;
      assert destbuf[..pos + 1] == destbuf[..pos] + [octet] && octets[..pos + 1] == octets[..pos] + [octets[pos]];
      if complete {
        k := k + 1;
      }
    }
    assert destbuf[..] == destbuf[..destbuf.Length] && octets == octets[..destbuf.Length];
    forall i | 0 <= i < destbuf.Length
      ensures if 2 * i + 1 < |d| then Pairs(destbuf[i], d[2 * i], d[2 * i + 1]) else destbuf[i] == 0
    {
      assert destbuf[i] == destbuf[..][i] == octets[i];
      OctetPairs(d, i);
    }
  }

  lemma OctetPairs(d: seq<Nibble>, k: nat)
    ensures if 2 * k + 1 < |d| then Pairs(OctetAt(d, k), d[2 * k], d[2 * k + 1]) else OctetAt(d, k) == 0
  {
  }

  class MACAddress {
    const address: array<Octet>

    ghost predicate Valid()
      reads this, address
    {
      address.Length == MAC_ADDRESS_BYTES
    }

    constructor ()
      ensures Valid() && fresh(address) && address[..] == [0, 0, 0, 0, 0, 0]
    {
      address := new Octet[6](_ => 0);
    }

    /** None stands for the null pointer. */
    method TryParse(hexstr: Option<string>) returns (ok: bool)
      requires Valid()
      modifies address
      ensures ok <==> hexstr.Some? && Accepted(hexstr.value)
      ensures address[..] == if ok then Parse(hexstr.value).value else old(address[..])
      ensures ok ==> Spelling(hexstr.value, Digits(hexstr.value)) && InPairs(address[..], Digits(hexstr.value))
      ensures hexstr.Some? ==> forall d: seq<Nibble> :: |d| == 12 && Spelling(hexstr.value, d) ==> ok && InPairs(address[..], d)
    {
      if hexstr.Some? {
        forall d: seq<Nibble>
          ensures |d| == 12 && Spelling(hexstr.value, d) ==>
                    Accepted(hexstr.value) && InPairs(Parse(hexstr.value).value, d)
        {
          ParseExactly(hexstr.value, d);
        }
        ParseExactly(hexstr.value, Digits(hexstr.value));
      }
      if hexstr.None? {
        return false;
      }
      var s := hexstr.value;
      var numHexDigits := 0;
      assert s[0..] == s;
      for i := 0 to |s|
        invariant forall k :: 0 <= k < i ==> IsHexDigit(s[k]) || IsSeparator(s[k])
        invariant numHexDigits + |Digits(s[i..])| == |Digits(s)|
        invariant address[..] == old(address[..])
      {
        DigitsFrom(s, i);
        if IsHexDigit(s[i]) {
          numHexDigits := numHexDigits + 1;
        } else if s[i] != ' ' && s[i] != ':' && s[i] != '-' {
          return false;
        }
      }
      if numHexDigits != 2 * MAC_ADDRESS_BYTES {
        return false;
      }
      var k := HexToBin(s, address);
      return true;
    }

    /** Writes an octet in upper case, a hyphen and a null into the buffer. */
    static method PrintOctet(buf: array<char>, s: nat, b: Octet)
      requires s + 4 <= buf.Length
      modifies buf
      ensures buf[..s + 3] == old(buf[..s]) + (Pair(b) + "-")
    {
      buf[s] := HexChar(b / 16);
      buf[s + 1] := HexChar(b % 16);
      buf[s + 2] := '-';
      buf[s + 3] := '\0';
      assert buf[..s] == old(buf[..s]);
      assert buf[s..s + 3] == Pair(b) + "-";
      assert buf[..s + 3] == buf[..s] + buf[s..s + 3];
    }

    method Str() returns (s: string)
      requires Valid()
      ensures s == Text(address[..]) && |s| == 17
      ensures forall k :: 0 <= k < 6 ==>
                s[3 * k] == "0123456789ABCDEF"[address[k] / 16] && s[3 * k + 1] == "0123456789ABCDEF"[address[k] % 16]
      ensures forall k :: 0 <= k < 5 ==> s[3 * k + 2] == '-'
    {
      var buf := new char[20](_ => ' ');
      for i := 0 to MAC_ADDRESS_BYTES
        invariant buf[..3 * i] == if i == 0 then "" else Text(address[..i]) + "-"
      {
        PrintOctet(buf, 3 * i, address[i]);
        assert address[..i + 1] == address[..i] + [address[i]];
        TextAppend(address[..i], address[i]);
      }
      assert address[..6] == address[..];
      TextLength(address[..]);
      TextSyntax(address[..]);
      assert buf[..17] == buf[..18][..17] == Text(address[..]);
      ghost var printed := buf[..17];
      buf[17] := '\0';
      s := CString(buf[..]);
      assert buf[..17] == printed;
      assert buf[..] == printed + buf[17..];
      CStringPrefix(printed, buf[17..]);
      forall k | 0 <= k < 6
        ensures s[3 * k] == "0123456789ABCDEF"[address[k] / 16] && s[3 * k + 1] == "0123456789ABCDEF"[address[k] % 16]
        ensures k < 5 ==> s[3 * k + 2] == '-'
      {
        TextExactly(address[..], k);
      }
    }

    method CompareTo(other: MACAddress) returns (r: int)
      requires Valid() && other.Valid()
      ensures r < 0 <==> Number(address[..]) < Number(other.address[..])
      ensures r == 0 <==> address[..] == other.address[..]
    {
      r := Compare(address[..], other.address[..]);
      CompareIsNumeric(address[..], other.address[..]);
    }
  }
}

/** The string operations the services rely on: decimal formatting of row
    numbers and ids inside messages, `string.Join`, `Replace(" ", "")` and
    the last piece of `Split('.')`. */
module Text {

  predicate IsDigit(c: char) { '0' <= c <= '9' }

  function DigitChar(d: nat): (c: char)
    requires d < 10
    ensures IsDigit(c) && c as int - '0' as int == d
  {
    ('0' as int + d) as char
  }

  /** Decimal digits of `n`, most significant first, without leading zeros. */
  function NatToString(n: nat): (s: string)
    decreases n
  {
    if n < 10 then [DigitChar(n)] else NatToString(n / 10) + [DigitChar(n % 10)]
  }

  /** The formatting of a (possibly negative) integer in an interpolated string. */
  function IntToString(n: int): (s: string)
  {
    if n < 0 then "-" + NatToString(-n) else NatToString(n)
  }

  /** The value of a string of decimal digits; the reference against which
      the formatting is checked. */
  function DecimalValue(s: string): (v: nat)
    requires forall i :: 0 <= i < |s| ==> IsDigit(s[i])
    decreases |s|
  {
    if s == [] then 0
    else assert IsDigit(s[|s| - 1]); 10 * DecimalValue(s[..|s| - 1]) + (s[|s| - 1] as int - '0' as int)
  }

  lemma {:induction false} NatToStringDigits(n: nat)
    ensures |NatToString(n)| >= 1
    ensures forall i :: 0 <= i < |NatToString(n)| ==> IsDigit(NatToString(n)[i])
    ensures n >= 10 ==> NatToString(n)[0] != '0'
    decreases n
  {
    if n >= 10 {
      NatToStringDigits(n / 10);
    }
  }

  /** Reading back the formatted number gives the number. */
  lemma {:induction false} NatToStringRoundTrip(n: nat)
    ensures forall i :: 0 <= i < |NatToString(n)| ==> IsDigit(NatToString(n)[i])
    ensures DecimalValue(NatToString(n)) == n
    decreases n
  {
    NatToStringDigits(n);
    if n >= 10 {
      NatToStringRoundTrip(n / 10);
      var s := NatToString(n);
      assert s[..|s| - 1] == NatToString(n / 10);
    }
  }

  /** Distinct row numbers give distinct texts, so a message names its row
      unambiguously. */
  lemma NatToStringInjective(m: nat, n: nat)
    requires NatToString(m) == NatToString(n)
    ensures m == n
  {
    NatToStringRoundTrip(m);
    NatToStringRoundTrip(n);
  }

  /** `string.Join(separator, parts)`. */
  function Join(parts: seq<string>, separator: string): (s: string)
    decreases |parts|
  {
    if parts == [] then ""
    else if |parts| == 1 then parts[0]
    else Join(parts[..|parts| - 1], separator) + separator + parts[|parts| - 1]
  }

  /** Joining one more part appends the separator and the part. */
  lemma JoinAppend(parts: seq<string>, part: string, separator: string)
    ensures Join(parts + [part], separator)
            == if parts == [] then part else Join(parts, separator) + separator + part
  {
    assert (parts + [part])[..|parts|] == parts;
  }

  /** Every part occurs in the joined text, in order: the text up to part `k`
      ends with that part. */
  lemma {:induction false} JoinContainsParts(parts: seq<string>, separator: string, k: nat)
    requires k < |parts|
    ensures |Join(parts[..k + 1], separator)| >= |parts[k]|
    ensures Join(parts[..k + 1], separator)[|Join(parts[..k + 1], separator)| - |parts[k]|..] == parts[k]
  {
    var prefix := parts[..k + 1];
    assert prefix[..|prefix| - 1] == parts[..k];
    assert prefix[|prefix| - 1] == parts[k];
  }

  /** `s.Replace(c, "")`: `s` with every occurrence of `c` removed. */
  function RemoveAll(s: string, c: char): (r: string)
    ensures c !in r
    ensures |r| <= |s|
    ensures forall x :: x in r <==> x in s && x != c
    ensures c !in s ==> r == s
    decreases |s|
  {
    if s == [] then ""
    else if s[0] == c then RemoveAll(s[1..], c)
    else [s[0]] + RemoveAll(s[1..], c)
  }

  /** Removing `c` works piece by piece: from a concatenation it removes
      `c` from each part. */
  lemma {:induction false} RemoveAllConcat(a: string, b: string, c: char)
    ensures RemoveAll(a + b, c) == RemoveAll(a, c) + RemoveAll(b, c)
    decreases |a|
  {
    if a != [] {
      assert (a + b)[0] == a[0] && (a + b)[1..] == a[1..] + b;
      RemoveAllConcat(a[1..], b, c);
    } else {
      assert a + b == b;
    }
  }

  /** Removing `c` leaves nothing exactly when `s` holds nothing but `c`. */
  lemma {:induction false} RemoveAllEmpty(s: string, c: char)
    ensures RemoveAll(s, c) == "" <==> forall i :: 0 <= i < |s| ==> s[i] == c
    decreases |s|
  {
    if s != [] {
      RemoveAllEmpty(s[1..], c);
      if s[0] == c {
        assert forall i :: 1 <= i < |s| ==> s[i] == s[1..][i - 1];
      }
    }
  }

  /** The last piece of `s.Split(separator)`: the longest suffix of `s`
      without `separator` (all of `s` when it has none). */
  function LastPiece(s: string, separator: char): (r: string)
    ensures separator !in r
    ensures |r| <= |s| && r == s[|s| - |r|..]
    ensures |r| < |s| ==> s[|s| - |r| - 1] == separator
    decreases |s|
  {
    if s == [] then ""
    else if s[|s| - 1] == separator then ""
    else
      var init := s[..|s| - 1];
      var r := LastPiece(init, separator);
      assert s[|s| - |r| - 1..] == init[|init| - |r|..] + [s[|s| - 1]];
      r + [s[|s| - 1]]
  }

  /** A suffix without `separator` that is all of `s` or follows a
      `separator` is the last piece. */
  lemma LastPieceIs(s: string, separator: char, piece: string)
    requires separator !in piece
    requires |piece| <= |s| && s[|s| - |piece|..] == piece
    requires |piece| < |s| ==> s[|s| - |piece| - 1] == separator
    ensures LastPiece(s, separator) == piece
  {
  }
}

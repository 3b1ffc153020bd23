/** The parts of `java.lang` the backend relies on: nullable strings and their
    concatenation, `String.startsWith`, `String.trim`, `String.split` with a
    one-character literal separator, `String.equalsIgnoreCase`, `Long.parseLong`
    and `Long.toString`. */
module JavaLang {
  import opened Wrappers
  import opened Ascii

  /** A `java.lang.String` reference, which may be `null`. */
  type JString = Option<string>

  /** The text that string concatenation (`"x" + s`) produces for a possibly-null string. */
  function Show(s: JString): string
  {
    match s
    case Some(v) => v
    case None => "null"
  }

  const MIN_LONG: int := -0x8000_0000_0000_0000
  const MAX_LONG: int := 0x7FFF_FFFF_FFFF_FFFF

  predicate StartsWith(s: string, prefix: string)
  {
    |prefix| <= |s| && s[..|prefix|] == prefix
  }

  // ---------------------------------------------------------------------------
  // String.trim: drops every leading and trailing character at or below U+0020.

  function TrimStart(s: string): (r: string)
    ensures |r| <= |s| && r == s[|s| - |r|..]
    ensures forall i :: 0 <= i < |s| - |r| ==> s[i] <= ' '
    ensures r == [] || r[0] > ' '
  {
    if s != [] && s[0] <= ' ' then TrimStart(s[1..]) else s
  }

  function TrimEnd(s: string): (r: string)
    ensures |r| <= |s| && r == s[..|r|]
    ensures forall i :: |r| <= i < |s| ==> s[i] <= ' '
    ensures r == [] || r[|r| - 1] > ' '
  {
    if s != [] && s[|s| - 1] <= ' ' then TrimEnd(s[..|s| - 1]) else s
  }

  /** `s.trim()`: the slice of `s` left once the blanks at both ends are gone. */
  function Trim(s: string): (r: string)
    ensures |r| <= |s|
    ensures r == [] || (r[0] > ' ' && r[|r| - 1] > ' ')
  {
    TrimEnd(TrimStart(s))
  }

  /** What `trim` returns is a slice of `s`, and everything outside that slice is a
      blank: `trim` removes the blank ends and nothing else. */
  lemma TrimIsSlice(s: string) returns (k: nat)
    ensures k + |Trim(s)| <= |s| && Trim(s) == s[k..k + |Trim(s)|]
    ensures forall i :: 0 <= i < k ==> s[i] <= ' '
    ensures forall i :: k + |Trim(s)| <= i < |s| ==> s[i] <= ' '
  {
    var t := TrimStart(s);
    k := |s| - |t|;
    var r := TrimEnd(t);
    PrefixOfSuffix(s, k, |r|);
  }

  /** The first `n` characters of `s[k..]` are `s[k..k + n]`, and what follows them
      there is what follows `s[..k + n]` in `s`. */
  lemma PrefixOfSuffix(s: string, k: nat, n: nat)
    requires k + n <= |s|
    ensures s[k..][..n] == s[k..k + n]
    ensures forall i :: k + n <= i < |s| ==> s[i] == s[k..][i - k]
  {
  }

  /** `s.trim().isEmpty()` holds exactly for the strings made only of blanks. */
  lemma TrimIsEmptyIffBlank(s: string)
    ensures Trim(s) == [] <==> forall i :: 0 <= i < |s| ==> s[i] <= ' '
  {
  }

  // ---------------------------------------------------------------------------
  // String.split with a one-character separator that is not a regular-expression
  // metacharacter ("\t", ";", "="): Java then splits on the literal character.

  /** The pieces of `s` between successive occurrences of `sep`, every empty piece kept. */
  function Pieces(s: string, sep: char): (r: seq<string>)
    ensures |r| >= 1
    decreases |s|
  {
    if s == [] then [[]]
    else
      var rest := Pieces(s[1..], sep);
      if s[0] == sep then [[]] + rest
      else [[s[0]] + rest[0]] + rest[1..]
  }

  /** No piece holds the separator, and there is more than one piece exactly when
      the separator occurs. */
  lemma {:induction false} PiecesFacts(s: string, sep: char)
    ensures forall k :: 0 <= k < |Pieces(s, sep)| ==> sep !in Pieces(s, sep)[k]
    ensures sep !in s ==> Pieces(s, sep) == [s]
    ensures sep in s ==> |Pieces(s, sep)| >= 2
    decreases |s|
  {
    if s != [] {
      PiecesFacts(s[1..], sep);
      assert s == [s[0]] + s[1..];
    }
  }

  /** Puts `sep` back between consecutive parts. */
  function Join(parts: seq<string>, sep: char): string
    decreases |parts|
  {
    if parts == [] then []
    else if |parts| == 1 then parts[0]
    else parts[0] + [sep] + Join(parts[1..], sep)
  }

  /** Cutting at every separator loses nothing. */
  lemma {:induction false} JoinPieces(s: string, sep: char)
    ensures Join(Pieces(s, sep), sep) == s
    decreases |s|
  {
    if s != [] {
      var rest := Pieces(s[1..], sep);
      JoinPieces(s[1..], sep);
      if s[0] == sep {
        assert ([[]] + rest)[1..] == rest;
      } else if |rest| > 1 {
        var p := Pieces(s, sep);
        assert p[0] == [s[0]] + rest[0] && p[1..] == rest[1..];
        assert Join(rest, sep) == rest[0] + [sep] + Join(rest[1..], sep);
      }
    }
  }

  /** Removes the empty strings at the end of `parts`. */
  function DropTrailingEmpty(parts: seq<string>): (r: seq<string>)
    ensures |r| <= |parts| && r == parts[..|r|]
    ensures forall k :: |r| <= k < |parts| ==> parts[k] == []
    ensures r == [] || r[|r| - 1] != []
  {
    if parts != [] && parts[|parts| - 1] == [] then DropTrailingEmpty(parts[..|parts| - 1])
    else parts
  }

  /** `s.split(sep)`: `[s]` itself when `sep` does not occur in `s`; otherwise the
      pieces between separators with the trailing empty pieces removed. */
  function Split(s: string, sep: char): (r: seq<string>)
    ensures |r| <= |Pieces(s, sep)|
  {
    if sep !in s then [s] else DropTrailingEmpty(Pieces(s, sep))
  }

  /** `split` returns a prefix of the pieces, none holding the separator; it drops
      only empty pieces, and when the separator occurs it leaves no empty last piece. */
  lemma SplitFacts(s: string, sep: char)
    ensures var p, r := Pieces(s, sep), Split(s, sep);
            && r == p[..|r|]
            && (forall k :: 0 <= k < |r| ==> sep !in r[k])
            && (forall k :: |r| <= k < |p| ==> p[k] == [])
            && (sep in s ==> r == [] || r[|r| - 1] != [])
            && (sep !in s ==> r == [s])
  {
    PiecesFacts(s, sep);
    var p, r := Pieces(s, sep), Split(s, sep);
    assert forall k :: 0 <= k < |r| ==> r[k] == p[k];
  }

  /** What `split` drops is empty pieces only: putting them back and rejoining gives `s`. */
  lemma SplitRejoins(s: string, sep: char) returns (m: nat)
    ensures Join(Split(s, sep) + seq(m, _ => []), sep) == s
  {
    SplitFacts(s, sep);
    var p, r := Pieces(s, sep), Split(s, sep);
    m := |p| - |r|;
    assert p == r + seq(m, _ => []);
    JoinPieces(s, sep);
  }

  // ---------------------------------------------------------------------------
  // String.equalsIgnoreCase. Only the ASCII letters are folded: no character outside
  // ASCII folds onto one of the letters of "gene", the one literal it is used with.

  /** `a.equalsIgnoreCase(b)`: the same length, and the same character at each position
      once ASCII letters are folded. */
  predicate EqualsIgnoreCase(a: string, b: string)
  {
    |a| == |b| && forall i :: 0 <= i < |a| ==> LowerChar(a[i]) == LowerChar(b[i])
  }

  /** `equalsIgnoreCase` is an equivalence that only relates strings of one length,
      and holds of two strings exactly when they differ at most in the case of their
      ASCII letters: an upper-case letter against its lower-case partner. */
  lemma EqualsIgnoreCaseIsEquivalence(a: string, b: string, c: string)
    ensures EqualsIgnoreCase(a, a)
    ensures EqualsIgnoreCase(a, b) ==> |a| == |b| && EqualsIgnoreCase(b, a)
    ensures EqualsIgnoreCase(a, b) && EqualsIgnoreCase(b, c) ==> EqualsIgnoreCase(a, c)
    ensures EqualsIgnoreCase(a, b) <==>
              |a| == |b| && forall i :: 0 <= i < |a| ==>
                a[i] == b[i] || (a[i] as int - b[i] as int == 32 && 'a' <= a[i] <= 'z')
                             || (b[i] as int - a[i] as int == 32 && 'a' <= b[i] <= 'z')
  {
  }

  // ---------------------------------------------------------------------------
  // Long.parseLong and Long.toString (ASCII digits).

  predicate IsDigit(c: char)
  {
    '0' <= c <= '9'
  }

  predicate AllDigits(s: string)
  {
    forall i :: 0 <= i < |s| ==> IsDigit(s[i])
  }

  /** The value of a string of decimal digits, most significant digit first. */
  function DigitsValue(ds: string): nat
    requires AllDigits(ds)
  {
    if ds == [] then 0 else 10 * DigitsValue(ds[..|ds| - 1]) + (ds[|ds| - 1] as int - '0' as int)
  }

  /** `s` without its optional leading sign. */
  function Unsigned(s: string): string
  {
    if s != [] && (s[0] == '-' || s[0] == '+') then s[1..] else s
  }

  /** `Long.parseLong(s)`, `None` standing for the `NumberFormatException`: an optional
      sign, at least one digit, nothing else, and a value that fits in 64 bits. */
  function ParseLong(s: string): (r: Option<int>)
    ensures r.Some? ==> Unsigned(s) != [] && AllDigits(Unsigned(s))
    ensures r.Some? ==> MIN_LONG <= r.value <= MAX_LONG
    ensures r.Some? ==> r.value == if s[0] == '-' then 0 - DigitsValue(Unsigned(s)) else DigitsValue(Unsigned(s))
    ensures (&& Unsigned(s) != [] && AllDigits(Unsigned(s))
             && MIN_LONG <= (if s[0] == '-' then 0 - DigitsValue(Unsigned(s)) else DigitsValue(Unsigned(s))) <= MAX_LONG)
            ==> r.Some?
  {
    var digits := Unsigned(s);
    if digits == [] || !AllDigits(digits) then None
    else
      var magnitude: int := DigitsValue(digits);
      var v := if s[0] == '-' then -magnitude else magnitude;
      if MIN_LONG <= v <= MAX_LONG then Some(v) else None
  }

  /** The decimal digits of `n`, without leading zeros. */
  function NaturalDigits(n: nat): (ds: string)
    ensures ds != [] && AllDigits(ds) && DigitsValue(ds) == n
    ensures ds[0] == '0' ==> n == 0
  {
    if n < 10 then [('0' as int + n) as char]
    else
      var init := NaturalDigits(n / 10);
      var ds := init + [('0' as int + n % 10) as char];
      assert ds[..|ds| - 1] == init;
      ds
  }

  /** `Long.toString(n)` (also what `"x" + n` prints). */
  function DecimalString(n: int): string
  {
    if n < 0 then "-" + NaturalDigits(-n) else NaturalDigits(n)
  }

  /** `Long.parseLong` reads back every 64-bit value `Long.toString` prints. */
  lemma ParseLongInvertsDecimalString(n: int)
    requires MIN_LONG <= n <= MAX_LONG
    ensures ParseLong(DecimalString(n)) == Some(n)
  {
  }
}

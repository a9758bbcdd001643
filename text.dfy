/** The .NET string operations the core relies on: white-space tests,
    OrdinalIgnoreCase equality, `String.Split`/`String.Join`, and the
    decimal formatting and parsing of `long`. */
module Text {
  import opened Base

  /** `char.IsWhiteSpace`: the characters with the Unicode White_Space property. */
  predicate IsWhiteSpace(c: char) {
    || c == ' '
    || '\t' <= c <= '\r'
    || c == '\U{85}' || c == '\U{A0}' || c == '\U{1680}'
    || '\U{2000}' <= c <= '\U{200A}'
    || c == '\U{2028}' || c == '\U{2029}' || c == '\U{202F}' || c == '\U{205F}'
    || c == '\U{3000}'
  }

  /** `string.IsNullOrWhiteSpace`; a null string is represented by "". */
  predicate IsNullOrWhiteSpace(s: string) {
    forall i | 0 <= i < |s| :: IsWhiteSpace(s[i])
  }

  // ---------------------------------------------------------------------
  // OrdinalIgnoreCase

  function FoldChar(c: char): char {
    if 'a' <= c <= 'z' then (c as int - 32) as char else c
  }

  /** The upper-case form that OrdinalIgnoreCase compares. */
  function Fold(s: string): string {
    seq(|s|, i requires 0 <= i < |s| => FoldChar(s[i]))
  }

  predicate EqualsIgnoreCase(a: string, b: string) {
    Fold(a) == Fold(b)
  }

  /** `xs.Contains(x, StringComparer.OrdinalIgnoreCase)`, and membership in a
      `HashSet` built with that comparer. */
  predicate ContainsIgnoreCase(xs: seq<string>, x: string) {
    exists i | 0 <= i < |xs| :: EqualsIgnoreCase(xs[i], x)
  }

  // ---------------------------------------------------------------------
  // String.Split(separator, StringSplitOptions.None) and String.Join

  predicate OccursAt(s: string, sep: string, i: nat) {
    i + |sep| <= |s| && s[i..i + |sep|] == sep
  }

  /** The first position at or after `from` where `sep` occurs in `s`. */
  function IndexOf(s: string, sep: string, from: nat): (r: Option<nat>)
    decreases |s| - from
    ensures r.Some? ==> from <= r.value && OccursAt(s, sep, r.value)
    ensures forall j :: from <= j && (r.None? || j < r.value) ==> !OccursAt(s, sep, j)
  {
    if from + |sep| > |s| then None
    else if OccursAt(s, sep, from) then Some(from)
    else IndexOf(s, sep, from + 1)
  }

  /** Splitting on a non-empty separator: the pieces between successive
      non-overlapping occurrences, found left to right; empty pieces are kept. */
  function SplitOn(s: string, sep: string): (parts: seq<string>)
    requires |sep| > 0
    ensures |parts| >= 1
    decreases |s|
  {
    match IndexOf(s, sep, 0)
    case None => [s]
    case Some(i) => [s[..i]] + SplitOn(s[i + |sep|..], sep)
  }

  /** `s.Split(new[] { sep }, StringSplitOptions.None)`. The array always
      holds one element, so .NET never falls back to white-space splitting; it
      skips an empty separator, leaving the whole text as the only piece. */
  function Split(s: string, sep: string): (parts: seq<string>)
    ensures sep == "" ==> parts == [s]
    ensures |parts| >= 1 && Join(parts, sep) == s
  {
    if sep == "" then [s] else JoinSplit(s, sep); SplitOn(s, sep)
  }

  /** `string.Join(sep, parts)`. */
  function Join(parts: seq<string>, sep: string): string
    decreases |parts|
  {
    if |parts| == 0 then ""
    else if |parts| == 1 then parts[0]
    else parts[0] + sep + Join(parts[1..], sep)
  }

  /** Joining the pieces of a split with the same separator gives back the text. */
  lemma {:induction false} JoinSplit(s: string, sep: string)
    requires |sep| > 0
    ensures Join(SplitOn(s, sep), sep) == s
    decreases |s|
  {
    match IndexOf(s, sep, 0)
    case None =>
    case Some(i) =>
      var rest := SplitOn(s[i + |sep|..], sep);
      JoinSplit(s[i + |sep|..], sep);
      assert SplitOn(s, sep)[1..] == rest;
      assert s == s[..i] + s[i..i + |sep|] + s[i + |sep|..];
  }

  /** `sep` occurs in `piece + sep` first right after `piece`. */
  ghost predicate EndsAtSeparator(piece: string, sep: string) {
    forall j | 0 <= j < |piece| :: !OccursAt(piece + sep, sep, j)
  }

  /** Splitting `piece + sep + rest` cuts right after `piece`. */
  lemma SplitAfterPiece(piece: string, sep: string, rest: string)
    requires |sep| > 0 && EndsAtSeparator(piece, sep)
    ensures SplitOn(piece + sep + rest, sep) == [piece] + SplitOn(rest, sep)
  {
    var s := piece + sep + rest;
    var n := |piece|;
    assert s[n..n + |sep|] == sep;
    assert OccursAt(s, sep, n);
    forall j | 0 <= j < n
      ensures !OccursAt(s, sep, j)
    {
      assert !OccursAt(piece + sep, sep, j);
      assert s[j..j + |sep|] == (piece + sep)[j..j + |sep|];
    }
    var r := IndexOf(s, sep, 0);
    assert r == Some(n);
    assert s[..n] == piece;
    assert s[n + |sep|..] == rest;
  }

  /** A piece without the separator character ends where the separator starts. */
  lemma CharEndsAtSeparator(piece: string, c: char)
    requires c !in piece
    ensures EndsAtSeparator(piece, [c])
  {
    forall j | 0 <= j < |piece|
      ensures !OccursAt(piece + [c], [c], j)
    {
      assert (piece + [c])[j..j + 1] == [piece[j]];
    }
  }

  /** Text without the separator character is one piece. */
  lemma SplitCharAbsent(s: string, c: char)
    requires c !in s
    ensures SplitOn(s, [c]) == [s]
  {
    forall j: nat
      ensures !OccursAt(s, [c], j)
    {
      if j < |s| {
        assert s[j..j + 1] == [s[j]];
      }
    }
  }

  /** With a one-character separator, a split distributes over a separator
      between two texts. */
  lemma {:induction false} SplitCharConcat(x: string, c: char, y: string)
    ensures SplitOn(x + [c] + y, [c]) == SplitOn(x, [c]) + SplitOn(y, [c])
    decreases |x|
  {
    if c in x {
      var k := FirstSeparatorKept(x, c, y);
      var rest := x[k + 1..];
      SplitCharConcat(rest, c, y);
      SplitAroundFirst(x, c, y, k);
    } else {
      SplitAfterAbsent(x, c, y);
    }
  }

  /** Splitting the join of non-empty list of pieces on a one-character
      separator none of them holds gives the pieces back. */
  lemma {:induction false} SplitJoinChar(parts: seq<string>, c: char)
    requires |parts| > 0 && forall i | 0 <= i < |parts| :: c !in parts[i]
    ensures SplitOn(Join(parts, [c]), [c]) == parts
    decreases |parts|
  {
    if |parts| == 1 {
      SplitCharAbsent(parts[0], c);
    } else {
      var head, rest := parts[0], parts[1..];
      assert forall i | 0 <= i < |rest| :: c !in rest[i] by {
        forall i | 0 <= i < |rest| ensures c !in rest[i] {
          assert rest[i] == parts[i + 1];
        }
      }
      SplitJoinChar(rest, c);
      assert Join(parts, [c]) == head + [c] + Join(rest, [c]);
      SplitAfterFreePiece(head, c, Join(rest, [c]));
      assert parts == [head] + rest;
    }
  }

  lemma SplitAfterFreePiece(head: string, c: char, tail: string)
    requires c !in head
    ensures SplitOn(head + [c] + tail, [c]) == [head] + SplitOn(tail, [c])
  {
    SplitCharConcat(head, c, tail);
    SplitCharAbsent(head, c);
  }

  /** One step of `SplitCharConcat`: both splits cut at the first separator
      of `x`, at `k`. */
  lemma SplitAroundFirst(x: string, c: char, y: string, k: nat)
    requires k < |x| && IndexOf(x, [c], 0) == Some(k) && IndexOf(x + [c] + y, [c], 0) == Some(k)
    requires SplitOn(x[k + 1..] + [c] + y, [c]) == SplitOn(x[k + 1..], [c]) + SplitOn(y, [c])
    ensures SplitOn(x + [c] + y, [c]) == SplitOn(x, [c]) + SplitOn(y, [c])
  {
    var hd: seq<string> := [x[..k]];
    var a, b := SplitOn(x[k + 1..], [c]), SplitOn(y, [c]);
    SplitJoinedAt(x, c, y, k);
    assert SplitOn(x + [c] + y, [c]) == hd + (a + b);
    SplitOnAt(x, [c], k);
    assert SplitOn(x, [c]) == hd + a;
    Regroup(hd, a, b);
  }

  lemma Regroup(p: seq<string>, q: seq<string>, r: seq<string>)
    ensures p + (q + r) == (p + q) + r
  {
  }

  lemma SplitJoinedAt(x: string, c: char, y: string, k: nat)
    requires k < |x| && IndexOf(x + [c] + y, [c], 0) == Some(k)
    ensures SplitOn(x + [c] + y, [c]) == [x[..k]] + SplitOn(x[k + 1..] + [c] + y, [c])
  {
    var s := x + [c] + y;
    SplitOnAt(s, [c], k);
    assert s[..k] == x[..k];
    assert s[k + 1..] == x[k + 1..] + [c] + y;
  }

  /** A first piece without the separator character is cut off whole. */
  lemma SplitAfterAbsent(x: string, c: char, y: string)
    requires c !in x
    ensures SplitOn(x + [c] + y, [c]) == SplitOn(x, [c]) + SplitOn(y, [c])
  {
    CharEndsAtSeparator(x, c);
    SplitAfterPiece(x, [c], y);
    SplitCharAbsent(x, c);
  }

  /** Splitting cuts at the first occurrence. */
  lemma SplitOnAt(s: string, sep: string, k: nat)
    requires |sep| > 0 && IndexOf(s, sep, 0) == Some(k)
    ensures SplitOn(s, sep) == [s[..k]] + SplitOn(s[k + |sep|..], sep)
  {
  }

  /** The first separator of `x` is still the first one once more text follows. */
  lemma FirstSeparatorKept(x: string, c: char, y: string) returns (k: nat)
    requires c in x
    ensures k < |x| && IndexOf(x, [c], 0) == Some(k) && IndexOf(x + [c] + y, [c], 0) == Some(k)
  {
    var i :| 0 <= i < |x| && x[i] == c;
    assert x[i..i + 1] == [c];
    assert OccursAt(x, [c], i);
    k := IndexOf(x, [c], 0).value;
    var s := x + [c] + y;
    assert OccursAt(s, [c], k) by { assert s[k..k + 1] == x[k..k + 1]; }
    forall j | 0 <= j < k
      ensures !OccursAt(s, [c], j)
    {
      assert !OccursAt(x, [c], j);
      assert s[j..j + 1] == x[j..j + 1];
    }
    IndexOfFirst(s, [c], k);
  }

  /** An occurrence with none before it is the one `IndexOf` finds. */
  lemma {:induction false} IndexOfFirst(s: string, sep: string, k: nat)
    requires OccursAt(s, sep, k)
    requires forall j | 0 <= j < k :: !OccursAt(s, sep, j)
    ensures IndexOf(s, sep, 0) == Some(k)
  {
    IndexOfFrom(s, sep, 0, k);
  }

  lemma {:induction false} IndexOfFrom(s: string, sep: string, from: nat, k: nat)
    requires from <= k && OccursAt(s, sep, k)
    requires forall j | from <= j < k :: !OccursAt(s, sep, j)
    ensures IndexOf(s, sep, from) == Some(k)
    decreases k - from
  {
    if from < k {
      IndexOfFrom(s, sep, from + 1, k);
    }
  }

  /** Text containing the separator character splits into at least two pieces. */
  /** No piece of a split on a one-character separator holds that character. */
  lemma {:induction false} SplitCharPiecesFree(s: string, c: char)
    ensures forall i | 0 <= i < |SplitOn(s, [c])| :: c !in SplitOn(s, [c])[i]
    decreases |s|
  {
    var parts := SplitOn(s, [c]);
    match IndexOf(s, [c], 0)
    case None =>
      forall j | 0 <= j < |s| ensures s[j] != c {
        assert !OccursAt(s, [c], j);
        assert s[j..j + 1] == [s[j]];
      }
    case Some(k) =>
      SplitCharPiecesFree(s[k + 1..], c);
      forall j | 0 <= j < k ensures s[..k][j] != c {
        assert !OccursAt(s, [c], j);
        assert s[j..j + 1] == [s[j]];
      }
      assert parts == [s[..k]] + SplitOn(s[k + 1..], [c]);
  }

  lemma SplitCharContaining(x: string, c: char)
    requires c in x
    ensures |SplitOn(x, [c])| >= 2
  {
    var i :| 0 <= i < |x| && x[i] == c;
    assert x == x[..i] + [c] + x[i + 1..];
    SplitCharConcat(x[..i], c, x[i + 1..]);
  }

  // ---------------------------------------------------------------------
  // long.ToString() and long.TryParse(s, out v)

  predicate IsDigit(c: char) {
    '0' <= c <= '9'
  }

  predicate AllDigits(s: string) {
    forall i | 0 <= i < |s| :: IsDigit(s[i])
  }

  function DigitChar(d: int): (c: char)
    requires 0 <= d < 10
    ensures IsDigit(c) && c as int - '0' as int == d
  {
    ('0' as int + d) as char
  }

  /** Decimal digits of a natural number, most significant first, no leading zero. */
  function NatToString(n: nat): (s: string)
    ensures |s| >= 1 && AllDigits(s)
    decreases n
  {
    if n < 10 then [DigitChar(n)] else NatToString(n / 10) + [DigitChar(n % 10)]
  }

  /** `long.ToString()`: an optional '-' followed by the decimal digits. */
  function IntToString(n: int): string {
    if n < 0 then "-" + NatToString(-n) else NatToString(n)
  }

  function DigitsValue(s: string): nat
    requires AllDigits(s)
    decreases |s|
  {
    if |s| == 0 then 0 else DigitsValue(s[..|s| - 1]) * 10 + (s[|s| - 1] as int - '0' as int)
  }

  lemma {:induction false} DigitsValueOfNat(n: nat)
    ensures DigitsValue(NatToString(n)) == n
    decreases n
  {
    if n >= 10 {
      var s := NatToString(n);
      DigitsValueOfNat(n / 10);
      assert s[..|s| - 1] == NatToString(n / 10);
    }
  }

  /** The white space NumberStyles.Integer allows around a number. */
  predicate IsNumberWhite(c: char) {
    c == ' ' || '\t' <= c <= '\r'
  }

  function TrimStartNumberWhite(s: string): string
    decreases |s|
  {
    if |s| > 0 && IsNumberWhite(s[0]) then TrimStartNumberWhite(s[1..]) else s
  }

  function TrimEndNumberWhite(s: string): string
    decreases |s|
  {
    if |s| > 0 && IsNumberWhite(s[|s| - 1]) then TrimEndNumberWhite(s[..|s| - 1]) else s
  }

  /** NumberStyles.Integer: optional white space, an optional '+' or '-', at
      least one decimal digit, optional white space; the value is unbounded. */
  function ParseInteger(s: string): Option<int> {
    var t := TrimEndNumberWhite(TrimStartNumberWhite(s));
    var signed := |t| > 0 && (t[0] == '-' || t[0] == '+');
    var digits := if signed then t[1..] else t;
    if |digits| > 0 && AllDigits(digits) then
      var magnitude: int := DigitsValue(digits);
      Some(if signed && t[0] == '-' then -magnitude else magnitude)
    else None
  }

  /** `long.TryParse(s, out v)`: Some(v) when it returns true. */
  function ParseLong(s: string): (v: Option<Long>)
    ensures v.Some? <==> ParseInteger(s).Some? && MinLong <= ParseInteger(s).value <= MaxLong
    ensures v.Some? ==> v.value as int == ParseInteger(s).value
  {
    match ParseInteger(s)
    case Some(v) => if MinLong <= v <= MaxLong then Some(v) else None
    case None => None
  }

  /** A text of decimal digits alone parses to their value. */
  lemma ParseIntegerOfDigits(s: string)
    ensures s != "" && AllDigits(s) ==> ParseInteger(s) == Some(DigitsValue(s))
  {
    if s != "" && AllDigits(s) {
      assert !IsNumberWhite(s[0]) && !IsNumberWhite(s[|s| - 1]);
    }
  }

  /** The decimal text of an integer parses back to it. */
  lemma ParseIntegerOfToString(n: int)
    ensures ParseInteger(IntToString(n)) == Some(n)
  {
    var s := IntToString(n);
    var digits := NatToString(if n < 0 then -n else n);
    DigitsValueOfNat(if n < 0 then -n else n);
    assert TrimStartNumberWhite(s) == s;
    assert TrimEndNumberWhite(s) == s;
    if n < 0 {
      assert s[1..] == digits;
    }
  }

  /** `long.TryParse(n.ToString())` gives back n. */
  lemma ParseLongOfToString(n: Long)
    ensures ParseLong(IntToString(n)) == Some(n)
  {
    ParseIntegerOfToString(n);
  }
}

/** A small optional-value type, used wherever the source either yields a value or fails. */
module Wrappers {
  datatype Option<+T> = None | Some(value: T)
}

/**
 * The Python string built-ins the readers lean on, stated over `seq<char>`:
 * `str.isspace`, `str.strip`, `str.split(sep)`, `sep.join`, `str.replace`,
 * `int(s)`, `int(s, 16)`, `float(s)` acceptance, `str.isalpha`/`str.upper`
 * on ASCII letters, decimal rendering and slicing with clamped bounds.
 */
module PyText {
  import opened Wrappers

  /** `c.isspace()`, which is also what the regular-expression class `\s` matches. */
  predicate IsSpace(c: char) {
    ('\t' <= c <= '\r') || ('\U{1c}' <= c <= '\U{1f}') || c == ' '
    || c == '\U{85}' || c == '\U{a0}' || c == '\U{1680}' || ('\U{2000}' <= c <= '\U{200a}')
    || c == '\U{2028}' || c == '\U{2029}' || c == '\U{202f}' || c == '\U{205f}' || c == '\U{3000}'
  }

  /**
   * The whitespace `int()` and `float()` skip around a number: CPython maps non-ASCII
   * spaces to ' ' and then skips only the C `isspace` set, so 0x1C..0x1F are not skipped.
   */
  predicate IsNumberSpace(c: char) {
    IsSpace(c) && !('\U{1c}' <= c <= '\U{1f}')
  }

  predicate IsQuote(c: char) { c == '"' }

  /** The character sets the source strips: `strip()`, the blanks `int()` skips, `strip('"')`. */
  datatype StripSet = Blanks | NumberBlanks | Quotes

  predicate Strips(k: StripSet, c: char) {
    match k
    case Blanks => IsSpace(c)
    case NumberBlanks => IsNumberSpace(c)
    case Quotes => IsQuote(c)
  }

  /** Drops the leading characters of set `k`. */
  function LStrip(s: string, k: StripSet): string {
    if s != [] && Strips(k, s[0]) then LStrip(s[1..], k) else s
  }

  /** Drops the trailing characters of set `k`. */
  function RStrip(s: string, k: StripSet): string {
    if s != [] && Strips(k, s[|s| - 1]) then RStrip(s[..|s| - 1], k) else s
  }

  function Strip(s: string, k: StripSet): string {
    RStrip(LStrip(s, k), k)
  }

  lemma {:induction false} StripUnpadded(s: string, k: StripSet)
    requires s != [] ==> !Strips(k, s[0]) && !Strips(k, s[|s| - 1])
    ensures Strip(s, k) == s
  {
  }

  /** Stripping quotes from a quoted token gives back the text between the quotes. */
  lemma {:induction false} StripQuotesOfQuoted(t: string)
    requires t != [] ==> t[0] != '"' && t[|t| - 1] != '"'
    ensures Strip("\"" + t + "\"", Quotes) == t
  {
    var q := "\"" + t + "\"";
    var u := t + "\"";
    assert q[1..] == u;
    assert LStrip(q, Quotes) == LStrip(u, Quotes);
    if t == [] {
      assert LStrip(u, Quotes) == LStrip([], Quotes);
    } else {
      assert LStrip(u, Quotes) == u;
      assert u[..|u| - 1] == t;
      assert RStrip(u, Quotes) == RStrip(t, Quotes);
    }
  }

  // ---------------------------------------------------------------------------
  // Searching, splitting and joining

  /** `sep` occurs in `s` starting at index `j`. */
  predicate OccursAt(s: string, sep: string, j: int) {
    0 <= j && j + |sep| <= |s| && s[j..j + |sep|] == sep
  }

  /** A character the text lacks occurs nowhere in it as a one-character separator. */
  lemma AbsentCharNeverOccurs(s: string, c: char)
    requires c !in s
    ensures forall j :: !OccursAt(s, [c], j)
  {
    forall j | 0 <= j < |s| ensures !OccursAt(s, [c], j) {
      assert s[j..j + 1][0] == s[j];
    }
  }

  /** `sep` does not start anywhere before index `k` of `s`. */
  predicate FreeBefore(s: string, sep: string, k: int) {
    forall j :: 0 <= j < k ==> !OccursAt(s, sep, j)
  }

  /** The leftmost occurrence of `sep` in `s`, as `str.find` computes it. */
  function Find(s: string, sep: string): (r: Option<nat>)
    requires |sep| > 0
    ensures r.Some? ==> OccursAt(s, sep, r.value) && FreeBefore(s, sep, r.value)
    ensures r.None? ==> FreeBefore(s, sep, |s|)
    decreases |s|
  {
    if |s| < |sep| then None
    else if s[..|sep|] == sep then Some(0)
    else
      var f := Find(s[1..], sep);
      assert forall j :: 1 <= j ==> OccursAt(s, sep, j) == OccursAt(s[1..], sep, j - 1);
      if f.None? then None else Some(f.value + 1)
  }

  /** An occurrence with none before it is the one `Find` reports. */
  lemma FindLeftmost(s: string, sep: string, i: nat)
    requires |sep| > 0 && OccursAt(s, sep, i) && FreeBefore(s, sep, i)
    ensures Find(s, sep) == Some(i)
  {
  }

  /** `s.split(sep)` for a non-empty separator: cut at each leftmost, non-overlapping occurrence. */
  function SplitBy(s: string, sep: string): (pieces: seq<string>)
    requires |sep| > 0
    ensures |pieces| >= 1
    decreases |s|
  {
    match Find(s, sep)
    case None => [s]
    case Some(i) => [s[..i]] + SplitBy(s[i + |sep|..], sep)
  }

  /** `sep.join(pieces)`. */
  function Join(pieces: seq<string>, sep: string): string {
    if pieces == [] then []
    else if |pieces| == 1 then pieces[0]
    else pieces[0] + sep + Join(pieces[1..], sep)
  }

  /**
   * `s.replace(target, repl)` for a non-empty `target`: a left-to-right scan that
   * rewrites each leftmost, non-overlapping occurrence.
   */
  function Replace(s: string, target: string, repl: string): string
    requires |target| > 0
    decreases |s|
  {
    if s == [] then []
    else if OccursAt(s, target, 0) then repl + Replace(s[|target|..], target, repl)
    else [s[0]] + Replace(s[1..], target, repl)
  }

  /** `target` does not start inside `s` and run on past its end into `t`. */
  predicate NoStraddle(s: string, t: string, target: string) {
    forall j :: 0 <= j < |s| && |s| < j + |target| ==> !OccursAt(s + t, target, j)
  }

  lemma NoStraddleDrop(s: string, t: string, target: string, n: nat)
    requires n <= |s| && NoStraddle(s, t, target)
    ensures NoStraddle(s[n..], t, target)
  {
    var s' := s[n..];
    forall j | 0 <= j < |s'| && |s'| < j + |target| ensures !OccursAt(s' + t, target, j) {
      assert (s' + t) == (s + t)[n..];
      assert !OccursAt(s + t, target, j + n);
      assert j + |target| <= |s' + t| ==> (s' + t)[j..j + |target|] == (s + t)[j + n..j + n + |target|];
    }
  }

  /** Replacing in a concatenation works piecewise when no occurrence straddles the seam. */
  lemma {:induction false} ReplaceConcat(s: string, t: string, target: string, repl: string)
    requires |target| > 0 && NoStraddle(s, t, target)
    ensures Replace(s + t, target, repl) == Replace(s, target, repl) + Replace(t, target, repl)
    decreases |s|
  {
    if s == [] {
      assert s + t == t;
    } else {
      var st := s + t;
      if OccursAt(s, target, 0) {
        assert st[..|target|] == s[..|target|];
        assert OccursAt(st, target, 0);
        NoStraddleDrop(s, t, target, |target|);
        assert st[|target|..] == s[|target|..] + t;
        ReplaceConcat(s[|target|..], t, target, repl);
      } else {
        assert !OccursAt(st, target, 0) by {
          if |target| <= |s| { assert st[..|target|] == s[..|target|]; }
        }
        NoStraddleDrop(s, t, target, 1);
        assert st[1..] == s[1..] + t;
        ReplaceConcat(s[1..], t, target, repl);
      }
    }
  }

  /** Joining the pieces of a split with the same separator gives back the text. */
  lemma {:induction false} JoinSplit(s: string, sep: string)
    requires |sep| > 0
    ensures Join(SplitBy(s, sep), sep) == s
    decreases |s|
  {
    if Find(s, sep).Some? {
      var i := Find(s, sep).value;
      var rest := s[i + |sep|..];
      SplitFound(s, sep, i);
      JoinSplit(rest, sep);
      var pieces := SplitBy(rest, sep);
      assert Join([s[..i]] + pieces, sep) == s[..i] + sep + Join(pieces, sep) by {
        assert ([s[..i]] + pieces)[1..] == pieces;
      }
      assert s == s[..i] + sep + rest by { assert s[i..i + |sep|] == sep; }
    }
  }

  /** No piece of a split contains the separator. */
  lemma {:induction false} SplitPiecesFree(s: string, sep: string)
    requires |sep| > 0
    ensures forall k, j :: 0 <= k < |SplitBy(s, sep)| ==> !OccursAt(SplitBy(s, sep)[k], sep, j)
    decreases |s|
  {
    match Find(s, sep)
    case None =>
    case Some(i) =>
      var rest := s[i + |sep|..];
      SplitPiecesFree(rest, sep);
      SplitFound(s, sep, i);
      forall j ensures !OccursAt(s[..i], sep, j) {
        if 0 <= j && j + |sep| <= i {
          SliceOfPrefix(s, i, j, j + |sep|);
          assert !OccursAt(s, sep, j);
        }
      }
  }

  lemma SliceOfPrefix<T>(s: seq<T>, i: nat, j: nat, k: nat)
    requires j <= k <= i <= |s|
    ensures s[..i][j..k] == s[j..k]
  {
  }

  /** Splitting pieces joined by a one-character separator none of them contains gives them back. */
  lemma {:induction false} SplitJoin(pieces: seq<string>, sep: string)
    requires |sep| == 1 && |pieces| >= 1
    requires forall k, j :: 0 <= k < |pieces| ==> !OccursAt(pieces[k], sep, j)
    ensures SplitBy(Join(pieces, sep), sep) == pieces
    decreases |pieces|
  {
    var p := pieces[0];
    if |pieces| == 1 {
      assert Join(pieces, sep) == p;
    } else {
      var rest := Join(pieces[1..], sep);
      var s := p + sep + rest;
      assert Join(pieces, sep) == s;
      assert s[|p|..|p| + 1] == sep;
      forall j | 0 <= j < |p| ensures !OccursAt(s, sep, j) {
        assert s[j..j + 1] == p[j..j + 1];
        assert !OccursAt(p, sep, j);
      }
      FindLeftmost(s, sep, |p|);
      SplitFound(s, sep, |p|);
      assert s[..|p|] == p && s[|p| + 1..] == rest;
      SplitJoin(pieces[1..], sep);
      assert pieces == [p] + pieces[1..];
    }
  }

  /**
   * A split whose first piece is already closed by a separator keeps that piece
   * whatever is appended afterwards.
   */
  lemma {:induction false} SplitPrefixStable(s: string, t: string, sep: string, n: nat)
    requires |sep| > 0 && n < |SplitBy(s, sep)|
    ensures n < |SplitBy(s + t, sep)|
    ensures SplitBy(s + t, sep)[..n] == SplitBy(s, sep)[..n]
    decreases |s|
  {
    if n > 0 {
      var i := Find(s, sep).value;
      var rest := s[i + |sep|..];
      var head := s[..i];
      SplitFound(s, sep, i);
      FindExtends(s, t, sep);
      SplitFound(s + t, sep, i);
      assert (s + t)[i + |sep|..] == rest + t;
      assert (s + t)[..i] == head;
      var a, b := SplitBy(rest + t, sep), SplitBy(rest, sep);
      SplitPrefixStable(rest, t, sep, n - 1);
      assert a[..n - 1] == b[..n - 1];
      assert ([head] + a)[..n] == [head] + a[..n - 1];
      assert ([head] + b)[..n] == [head] + b[..n - 1];
    }
  }

  /** One step of a split at the leftmost occurrence `i`. */
  lemma SplitFound(s: string, sep: string, i: nat)
    requires |sep| > 0 && Find(s, sep) == Some(i)
    ensures SplitBy(s, sep) == [s[..i]] + SplitBy(s[i + |sep|..], sep)
  {
  }

  /** A separator found in `s` is still the leftmost one in `s + t`. */
  lemma FindExtends(s: string, t: string, sep: string)
    requires |sep| > 0 && Find(s, sep).Some?
    ensures Find(s + t, sep) == Find(s, sep)
  {
    var i := Find(s, sep).value;
    assert OccursAt(s + t, sep, i) by { assert (s + t)[i..i + |sep|] == s[i..i + |sep|]; }
    forall j | 0 <= j < i ensures !OccursAt(s + t, sep, j) {
      assert (s + t)[j..j + |sep|] == s[j..j + |sep|];
      assert !OccursAt(s, sep, j);
    }
    FindLeftmost(s + t, sep, i);
  }

  // ---------------------------------------------------------------------------
  // Replacing one character by another

  /** The character-wise image of `s` with `a` replaced by `b`, a reference for `Replace`. */
  predicate MapsChar(s: string, r: string, a: char, b: char) {
    |r| == |s| && forall k :: 0 <= k < |s| ==> r[k] == (if s[k] == a then b else s[k])
  }

  /** `s.replace(a, b)` for one character by one character rewrites exactly the occurrences of `a`. */
  lemma {:induction false} ReplaceCharPointwise(s: string, a: char, b: char)
    ensures MapsChar(s, Replace(s, [a], [b]), a, b)
    decreases |s|
  {
    if s != [] {
      ReplaceCharPointwise(s[1..], a, b);
      assert OccursAt(s, [a], 0) <==> s[0] == a by { assert s[..1] == [s[0]]; }
    }
  }

  // ---------------------------------------------------------------------------
  // Numbers: int(s), int(s, 16), float(s)

  predicate IsDecimalDigit(c: char) { '0' <= c <= '9' }

  predicate IsDigitOf(c: char, base: int) {
    IsDecimalDigit(c) || (base == 16 && ('a' <= c <= 'f' || 'A' <= c <= 'F'))
  }

  function DigitValue(c: char): (d: nat)
    ensures IsDigitOf(c, 16) ==> d < 16
    ensures IsDecimalDigit(c) ==> d < 10
  {
    if '0' <= c <= '9' then c as int - '0' as int
    else if 'a' <= c <= 'f' then c as int - 'a' as int + 10
    else if 'A' <= c <= 'F' then c as int - 'A' as int + 10
    else 0
  }

  /**
   * A run of digits in which single underscores may separate digits, the form
   * `int()` and `float()` accept: it starts and ends with a digit.
   */
  predicate IsDigitPart(s: string, base: int) {
    && |s| > 0 && IsDigitOf(s[0], base) && IsDigitOf(s[|s| - 1], base)
    && (forall i :: 0 <= i < |s| ==> IsDigitOf(s[i], base) || s[i] == '_')
    && (forall i :: 0 <= i < |s| - 1 ==> s[i] == '_' ==> s[i + 1] != '_')
  }

  /** The value of a digit run read most significant digit first, underscores skipped. */
  function DigitsValue(s: string, base: nat): nat {
    if s == [] then 0
    else if s[|s| - 1] == '_' then DigitsValue(s[..|s| - 1], base)
    else DigitsValue(s[..|s| - 1], base) * base + DigitValue(s[|s| - 1])
  }

  function WithoutSign(t: string): string {
    if t != [] && (t[0] == '+' || t[0] == '-') then t[1..] else t
  }

  predicate Negative(t: string) { t != [] && t[0] == '-' }

  /** The digits that follow an optional `0x`/`0X` prefix (and one optional underscore) in base 16. */
  function WithoutPrefix(u: string, base: int): string {
    if base == 16 && |u| >= 2 && u[0] == '0' && (u[1] == 'x' || u[1] == 'X') then
      var w := u[2..];
      if w != [] && w[0] == '_' then w[1..] else w
    else u
  }

  /**
   * `int(s)` (base 10) or `int(s, 16)`: surrounding number whitespace, an optional
   * sign, in base 16 an optional `0x` prefix, then a digit run. `None` is the
   * `ValueError` the source would raise.
   */
  function ParseInt(s: string, base: int): (r: Option<int>)
    requires base == 10 || base == 16
  {
    var t := Strip(s, NumberBlanks);
    var v := WithoutPrefix(WithoutSign(t), base);
    if IsDigitPart(v, base) then
      Some(if Negative(t) then -(DigitsValue(v, base) as int) else DigitsValue(v, base))
    else None
  }

  predicate IsIntText(s: string) { ParseInt(s, 10).Some? }

  /** The value `int(text)` gives, for a text known to parse. */
  function IntOf(text: string): int
    requires IsIntText(text)
  {
    ParseInt(text, 10).value
  }

  /** Lower-casing of ASCII letters, enough to compare `inf`/`nan` case-insensitively. */
  function Lower(c: char): char {
    if 'A' <= c <= 'Z' then (c as int - 'A' as int + 'a' as int) as char else c
  }

  function LowerText(s: string): (r: string)
    ensures |r| == |s| && forall k :: 0 <= k < |s| ==> r[k] == Lower(s[k])
  {
    if s == [] then [] else [Lower(s[0])] + LowerText(s[1..])
  }

  function IndexOf(s: string, p: char -> bool): (k: nat)
    ensures k <= |s| && (k < |s| ==> p(s[k])) && forall j :: 0 <= j < k ==> !p(s[j])
  {
    if s == [] then 0 else if p(s[0]) then 0 else 1 + IndexOf(s[1..], p)
  }

  predicate IsDot(c: char) { c == '.' }
  predicate IsExpMark(c: char) { c == 'e' || c == 'E' }

  /** The part before an exponent: `digits`, `digits.`, `.digits` or `digits.digits`. */
  predicate IsMantissa(m: string) {
    var d := IndexOf(m, IsDot);
    if d == |m| then IsDigitPart(m, 10)
    else
      var a, b := m[..d], m[d + 1..];
      (a == [] || IsDigitPart(a, 10)) && (b == [] || IsDigitPart(b, 10)) && (a != [] || b != [])
  }

  predicate IsExponent(x: string) {
    IsDigitPart(WithoutSign(x), 10)
  }

  /** The text `float()` accepts (after its whitespace is stripped and a sign removed). */
  predicate IsFloatBody(b: string) {
    var l := LowerText(b);
    l == "inf" || l == "infinity" || l == "nan" ||
    (var k := IndexOf(b, IsExpMark);
     IsMantissa(b[..k]) && (k == |b| || IsExponent(b[k + 1..])))
  }

  /** `float(s)` succeeds; the value itself is not computed by this model. */
  predicate IsFloatText(s: string) {
    IsFloatBody(WithoutSign(Strip(s, NumberBlanks)))
  }

  // ---------------------------------------------------------------------------
  // Decimal rendering

  function DecimalDigit(d: nat): (c: char)
    requires d < 10
    ensures IsDecimalDigit(c) && DigitValue(c) == d
  {
    ('0' as int + d) as char
  }

  /** `str(n)` for a natural number. */
  function NatText(n: nat): (r: string)
    ensures |r| > 0 && forall k :: 0 <= k < |r| ==> IsDecimalDigit(r[k])
  {
    if n < 10 then [DecimalDigit(n)] else NatText(n / 10) + [DecimalDigit(n % 10)]
  }

  /** Reading back the decimal text of `n` gives `n`. */
  lemma {:induction false} NatTextValue(n: nat)
    ensures DigitsValue(NatText(n), 10) == n
  {
    if n >= 10 {
      NatTextValue(n / 10);
      var r := NatText(n);
      assert r[..|r| - 1] == NatText(n / 10);
    }
  }

  /** `str(i)` for any integer. */
  function IntText(i: int): string {
    if i < 0 then "-" + NatText(-i) else NatText(i)
  }

  /** `int(str(i)) == i`: Python's integer parse inverts its decimal rendering. */
  lemma {:induction false} IntTextRoundTrip(i: int)
    ensures ParseInt(IntText(i), 10) == Some(i)
  {
    var n: nat := if i < 0 then -i else i;
    var d := NatText(n);
    var s := IntText(i);
    NatTextValue(n);
    NatTextIsDigitPart(n);
    assert IsDecimalDigit(s[|s| - 1]) by { assert s[|s| - 1] == d[|d| - 1]; }
    StripNumberText(s);
    assert WithoutSign(s) == d;
    assert WithoutPrefix(d, 10) == d;
    assert Negative(s) <==> i < 0;
  }

  /** Text that starts with a sign or digit and ends with a digit has no number whitespace to strip. */
  lemma StripNumberText(s: string)
    requires s != [] && (s[0] == '-' || IsDecimalDigit(s[0])) && IsDecimalDigit(s[|s| - 1])
    ensures Strip(s, NumberBlanks) == s
  {
    assert !IsNumberSpace(s[0]) && !IsNumberSpace(s[|s| - 1]);
    StripUnpadded(s, NumberBlanks);
  }

  lemma NatTextIsDigitPart(n: nat)
    ensures IsDigitPart(NatText(n), 10)
  {
  }

  /** `f"{n:04}"`: the decimal text of `n`, left-padded with zeros to four characters. */
  function Pad4(n: nat): (r: string)
    ensures |r| >= 4
  {
    var d := NatText(n);
    if |d| < 4 then seq(4 - |d|, _ => '0') + d else d
  }

  lemma {:induction false} NatTextLength(n: nat, k: nat)
    requires n < Pow10(k)
    ensures |NatText(n)| <= if k == 0 then 1 else k
  {
    if n >= 10 {
      assert Pow10(0) == 1 && Pow10(1) == 10;
      NatTextLength(n / 10, k - 1);
    }
  }

  function Pow10(k: nat): nat { if k == 0 then 1 else 10 * Pow10(k - 1) }

  /** Leading zeros do not change a digit run's value. */
  lemma {:induction false} LeadingZeros(z: nat, d: string)
    ensures DigitsValue(seq(z, _ => '0') + d, 10) == DigitsValue(d, 10)
    decreases |d|, z
  {
    var zs := seq(z, _ => '0');
    if d == [] {
      if z > 0 {
        assert zs + d == seq(z - 1, _ => '0') + ['0'];
        assert (zs + d)[..|zs + d| - 1] == seq(z - 1, _ => '0') + [];
        LeadingZeros(z - 1, []);
      }
    } else {
      assert (zs + d)[..|zs + d| - 1] == zs + d[..|d| - 1];
      LeadingZeros(z, d[..|d| - 1]);
    }
  }

  /** The four-character rendering of a value below 10000 reads back as that value. */
  lemma Pad4Value(n: nat)
    requires n < 10000
    ensures |Pad4(n)| == 4
    ensures forall k :: 0 <= k < 4 ==> IsDecimalDigit(Pad4(n)[k])
    ensures DigitsValue(Pad4(n), 10) == n
  {
    var d := NatText(n);
    NatTextValue(n);
    assert Pow10(4) == 10000;
    NatTextLength(n, 4);
    if |d| < 4 { LeadingZeros(4 - |d|, d); }
  }

  // ---------------------------------------------------------------------------
  // Letters and slices

  /** `c.isalpha()` over the ASCII letters. */
  predicate IsAlpha(c: char) { 'a' <= c <= 'z' || 'A' <= c <= 'Z' }

  /** `c.upper()` over ASCII. */
  function Upper(c: char): (u: char)
    ensures IsAlpha(c) ==> 'A' <= u <= 'Z' && Lower(u) == Lower(c)
    ensures !IsAlpha(c) ==> u == c
  {
    if 'a' <= c <= 'z' then (c as int - 'a' as int + 'A' as int) as char else c
  }

  predicate EndsWith(s: string, suffix: string) {
    |suffix| <= |s| && s[|s| - |suffix|..] == suffix
  }

  /** `s[lo:hi]` for non-negative bounds, which Python clamps to the length. */
  function Slice<T>(s: seq<T>, lo: nat, hi: nat): (r: seq<T>)
    ensures |r| == (if lo < hi && lo < |s| then (if hi < |s| then hi else |s|) - lo else 0)
    ensures forall k :: 0 <= k < |r| ==> r[k] == s[lo + k]
  {
    var a := if lo < |s| then lo else |s|;
    var b := if hi < |s| then hi else |s|;
    if a < b then s[a..b] else []
  }
}

/** ASCII string helpers mirroring the parts of Rust's `str` API the core uses:
    `lines`, `trim`, `split`, `split_whitespace`, `to_uppercase` and integer
    formatting. Whitespace is the ASCII subset of `char::is_whitespace`. */
module Text {
  import opened Common

  predicate IsWhitespace(c: char) {
    c == ' ' || c == '\t' || c == '\n' || c == '\U{000B}' || c == '\U{000C}' || c == '\r'
  }

  predicate NoWhitespace(s: string) {
    forall i :: 0 <= i < |s| ==> !IsWhitespace(s[i])
  }

  predicate AllWhitespace(s: string) {
    forall i :: 0 <= i < |s| ==> IsWhitespace(s[i])
  }

  predicate StartsWith(s: string, prefix: string) {
    |prefix| <= |s| && s[..|prefix|] == prefix
  }

  predicate EndsWith(s: string, suffix: string) {
    |suffix| <= |s| && s[|s| - |suffix|..] == suffix
  }

  /** Position of the first `c` in `s`, if any. */
  function IndexOf(s: string, c: char): (r: Option<nat>)
    ensures r.Some? ==> r.value < |s| && s[r.value] == c && c !in s[..r.value]
    ensures r.None? ==> c !in s
  {
    if |s| == 0 then None
    else if s[0] == c then Some(0)
    else
      match IndexOf(s[1..], c)
      case None => None
      case Some(k) =>
        assert s[..k + 1] == [s[0]] + s[1..][..k];
        Some(k + 1)
  }

  lemma {:induction false} IndexOfAfterPrefix(a: string, c: char, b: string)
    requires c !in a
    ensures IndexOf(a + [c] + b, c) == Some(|a|)
    decreases |a|
  {
    if |a| == 0 {
      assert a + [c] + b == [c] + b;
    } else {
      assert a[0] != c;
      assert c !in a[1..];
      IndexOfAfterPrefix(a[1..], c, b);
      assert (a + [c] + b)[1..] == a[1..] + [c] + b;
    }
  }

  // ---------------------------------------------------------------------------
  // `str::split(sep)` and its inverse

  /** `s.split(sep)`: the pieces between separators; an empty string gives one
      empty piece. */
  function Split(s: string, sep: char): (parts: seq<string>)
    ensures |parts| >= 1
    ensures forall i :: 0 <= i < |parts| ==> sep !in parts[i]
    decreases |s|
  {
    match IndexOf(s, sep)
    case None => [s]
    case Some(k) => [s[..k]] + Split(s[k + 1..], sep)
  }

  /** `parts.join(sep)`. */
  function Join(parts: seq<string>, sep: char): string
    decreases |parts|
  {
    if |parts| == 0 then ""
    else if |parts| == 1 then parts[0]
    else parts[0] + [sep] + Join(parts[1..], sep)
  }

  /** Splitting a piece free of the separator off the front. */
  lemma SplitCons(a: string, sep: char, b: string)
    requires sep !in a
    ensures Split(a + [sep] + b, sep) == [a] + Split(b, sep)
  {
    var s := a + [sep] + b;
    IndexOfAfterPrefix(a, sep, b);
    assert s[..|a|] == a;
    assert s[|a| + 1..] == b;
  }

  /** Joining the pieces of a split gives back the original text. */
  lemma {:induction false} JoinSplit(s: string, sep: char)
    ensures Join(Split(s, sep), sep) == s
    decreases |s|
  {
    match IndexOf(s, sep)
    case None =>
    case Some(k) =>
      var rest := Split(s[k + 1..], sep);
      JoinSplit(s[k + 1..], sep);
      var parts := [s[..k]] + rest;
      assert Split(s, sep) == parts;
      assert parts[1..] == rest;
      assert Join(parts, sep) == s[..k] + [sep] + Join(rest, sep);
      assert s == s[..k] + [sep] + s[k + 1..];
  }

  /** There is one more piece than there are separators. */
  lemma {:induction false} SplitCount(s: string, sep: char)
    ensures |Split(s, sep)| == multiset(s)[sep] + 1
    decreases |s|
  {
    match IndexOf(s, sep)
    case None =>
      assert multiset(s)[sep] == 0;
    case Some(k) =>
      SplitCount(s[k + 1..], sep);
      assert s == s[..k] + [sep] + s[k + 1..];
      assert multiset(s) == multiset(s[..k]) + multiset([sep]) + multiset(s[k + 1..]);
      assert multiset(s[..k])[sep] == 0;
  }

  /** Splitting text that has no separator gives it back whole. */
  lemma SplitNoSeparator(s: string, sep: char)
    requires sep !in s
    ensures Split(s, sep) == [s]
  {
  }

  // ---------------------------------------------------------------------------
  // `str::lines`

  /** Drops one trailing '\r', as `lines` does for a "\r\n" ending. */
  function StripCr(line: string): string {
    if |line| > 0 && line[|line| - 1] == '\r' then line[..|line| - 1] else line
  }

  /** `s.lines()`: split after each '\n', drop the '\n' and a '\r' before it;
      a final line ending adds no empty line, and "" has no lines. */
  function Lines(s: string): (ls: seq<string>)
    ensures forall i :: 0 <= i < |ls| ==> '\n' !in ls[i]
    decreases |s|
  {
    if |s| == 0 then []
    else
      match IndexOf(s, '\n')
      case None => [s]
      case Some(k) =>
        var head := s[..k];
        assert '\n' !in StripCr(head) by {
          if |head| > 0 && head[|head| - 1] == '\r' {
            assert forall i :: 0 <= i < |head| - 1 ==> StripCr(head)[i] == head[i];
          }
        }
        [StripCr(head)] + Lines(s[k + 1..])
  }

  lemma LinesCons(a: string, b: string)
    requires '\n' !in a
    ensures Lines(a + "\n" + b) == [StripCr(a)] + Lines(b)
  {
    var s := a + "\n" + b;
    IndexOfAfterPrefix(a, '\n', b);
    assert s == a + ['\n'] + b;
    assert s[..|a|] == a;
    assert s[|a| + 1..] == b;
  }

  lemma LinesLast(a: string)
    requires '\n' !in a && |a| > 0
    ensures Lines(a) == [a]
  {
  }

  // ---------------------------------------------------------------------------
  // `str::trim`

  function TrimStart(s: string): (r: string)
    decreases |s|
  {
    if |s| > 0 && IsWhitespace(s[0]) then TrimStart(s[1..]) else s
  }

  function TrimEnd(s: string): (r: string)
    decreases |s|
  {
    if |s| > 0 && IsWhitespace(s[|s| - 1]) then TrimEnd(s[..|s| - 1]) else s
  }

  /** `s.trim()`. */
  function Trim(s: string): string {
    TrimEnd(TrimStart(s))
  }

  lemma {:induction false} TrimStartSkipsWhitespace(w: string, x: string)
    requires AllWhitespace(w)
    ensures TrimStart(w + x) == TrimStart(x)
    decreases |w|
  {
    if |w| > 0 {
      assert (w + x)[1..] == w[1..] + x;
      TrimStartSkipsWhitespace(w[1..], x);
    } else {
      assert w + x == x;
    }
  }

  lemma {:induction false} TrimEndSkipsWhitespace(x: string, w: string)
    requires AllWhitespace(w)
    ensures TrimEnd(x + w) == TrimEnd(x)
    decreases |w|
  {
    if |w| > 0 {
      assert (x + w)[..|x + w| - 1] == x + w[..|w| - 1];
      TrimEndSkipsWhitespace(x, w[..|w| - 1]);
    } else {
      assert x + w == x;
    }
  }

  lemma {:induction false} TrimStartAppend(x: string, y: string)
    ensures !AllWhitespace(x) ==> TrimStart(x + y) == TrimStart(x) + y
    ensures AllWhitespace(x) ==> TrimStart(x + y) == TrimStart(y) && TrimStart(x) == ""
    decreases |x|
  {
    if |x| == 0 {
      assert x + y == y;
    } else if IsWhitespace(x[0]) {
      assert (x + y)[1..] == x[1..] + y;
      TrimStartAppend(x[1..], y);
      if AllWhitespace(x[1..]) {
        assert AllWhitespace(x);
      } else {
        assert !AllWhitespace(x);
      }
    } else {
      assert !AllWhitespace(x);
    }
  }

  /** Surrounding whitespace does not change the trimmed text. */
  lemma TrimIgnoresSurroundingWhitespace(w1: string, s: string, w2: string)
    requires AllWhitespace(w1) && AllWhitespace(w2)
    ensures Trim(w1 + s + w2) == Trim(s)
  {
    assert w1 + s + w2 == w1 + (s + w2);
    TrimStartSkipsWhitespace(w1, s + w2);
    TrimStartAppend(s, w2);
    if !AllWhitespace(s) {
      TrimEndSkipsWhitespace(TrimStart(s), w2);
    } else {
      TrimStartAppend(w2, "");
      assert w2 + "" == w2;
    }
  }

  // ---------------------------------------------------------------------------
  // `split_whitespace().next()`

  /** Index of the first whitespace character, or `|s|`. */
  function FirstWhitespace(s: string): (i: nat)
    ensures i <= |s|
    ensures forall k :: 0 <= k < i ==> !IsWhitespace(s[k])
    ensures i < |s| ==> IsWhitespace(s[i])
  {
    if |s| == 0 then 0
    else if IsWhitespace(s[0]) then 0
    else 1 + FirstWhitespace(s[1..])
  }

  /** `s.split_whitespace().next()`: the first maximal run of non-whitespace. */
  function FirstToken(s: string): Option<string>
    decreases |s|
  {
    if |s| == 0 then None
    else if IsWhitespace(s[0]) then FirstToken(s[1..])
    else Some(s[..FirstWhitespace(s)])
  }

  /** `t` is the first token of `s`: `s` is whitespace, then `t` (non-empty,
      no whitespace), then either the end or a whitespace character. */
  predicate IsFirstToken(s: string, t: string) {
    exists a, b :: 0 <= a < b <= |s| && TokenAt(s, t, a, b)
  }

  /** `t` occupies `s[a..b]`, preceded only by whitespace and followed by
      the end or a whitespace character. */
  predicate TokenAt(s: string, t: string, a: int, b: int) {
    && 0 <= a < b <= |s|
    && AllWhitespace(s[..a]) && s[a..b] == t
    && NoWhitespace(t) && (b == |s| || IsWhitespace(s[b]))
  }

  /** `FirstWhitespace` stops at the first whitespace position and nowhere else. */
  lemma {:induction false} FirstWhitespaceAt(s: string, b: nat)
    requires b <= |s|
    requires forall k :: 0 <= k < b ==> !IsWhitespace(s[k])
    requires b == |s| || IsWhitespace(s[b])
    ensures FirstWhitespace(s) == b
    decreases b
  {
    if b > 0 {
      FirstWhitespaceAt(s[1..], b - 1);
    }
  }

  /** Any witness of `IsFirstToken` is what `FirstToken` returns. */
  lemma {:induction false} TokenFromWitness(s: string, t: string, a: nat, b: nat)
    requires a < b <= |s| && AllWhitespace(s[..a]) && s[a..b] == t
    requires NoWhitespace(t) && (b == |s| || IsWhitespace(s[b]))
    ensures FirstToken(s) == Some(t)
    decreases a
  {
    if a > 0 {
      assert s[..a][0] == s[0];
      assert s[1..][..a - 1] == s[1..a];
      assert s[1..][a - 1..b - 1] == t;
      TokenFromWitness(s[1..], t, a - 1, b - 1);
    } else {
      forall k | 0 <= k < b
        ensures !IsWhitespace(s[k])
      {
        assert t[k] == s[k];
      }
      FirstWhitespaceAt(s, b);
    }
  }

  /** What `FirstToken` returns has a witness of `IsFirstToken`. */
  lemma {:induction false} WitnessFromToken(s: string)
    requires FirstToken(s).Some?
    ensures IsFirstToken(s, FirstToken(s).value)
    decreases |s|
  {
    var t := FirstToken(s).value;
    if IsWhitespace(s[0]) {
      var s' := s[1..];
      assert FirstToken(s') == Some(t);
      WitnessFromToken(s');
      var a, b :| 0 <= a < b <= |s'| && TokenAt(s', t, a, b);
      assert s[..a + 1] == [s[0]] + s'[..a];
      assert s[a + 1..b + 1] == s'[a..b];
      assert b + 1 == |s| || s[b + 1] == s'[b];
      assert TokenAt(s, t, a + 1, b + 1);
    } else {
      var i := FirstWhitespace(s);
      assert s[..0] == [];
      assert TokenAt(s, t, 0, i);
    }
  }

  /** `FirstToken` finds exactly the token `IsFirstToken` describes. */
  lemma FirstTokenSpec(s: string, t: string)
    ensures FirstToken(s) == Some(t) <==> IsFirstToken(s, t)
  {
    if FirstToken(s) == Some(t) {
      WitnessFromToken(s);
    }
    if IsFirstToken(s, t) {
      var a, b :| 0 <= a < b <= |s| && TokenAt(s, t, a, b);
      TokenFromWitness(s, t, a, b);
    }
  }

  // ---------------------------------------------------------------------------
  // `str::to_uppercase`, ASCII only

  function UpperChar(c: char): (u: char) {
    if 'a' <= c <= 'z' then (c as int - 32) as char else c
  }

  function ToUpper(s: string): (r: string)
    ensures |r| == |s|
    ensures forall i :: 0 <= i < |r| ==> !('a' <= r[i] <= 'z')
  {
    seq(|s|, i requires 0 <= i < |s| => UpperChar(s[i]))
  }

  /** Upper-casing twice is upper-casing once. */
  lemma ToUpperIdempotent(s: string)
    ensures ToUpper(ToUpper(s)) == ToUpper(s)
  {
  }

  // ---------------------------------------------------------------------------
  // Integer formatting: `{}` (decimal) and `{:x}` (lower-case hexadecimal)

  predicate IsDigitChar(c: char) {
    '0' <= c <= '9' || 'a' <= c <= 'f'
  }

  /** The character for digit `d`, as `{}` and `{:x}` print it. */
  function DigitChar(d: nat): (c: char)
    requires d < 16
    ensures IsDigitChar(c)
  {
    if d < 10 then ('0' as int + d) as char else ('a' as int + d - 10) as char
  }

  /** The digits of `n` in `base`, most significant first, no leading zeros. */
  function NatToString(n: nat, base: nat): (s: string)
    requires 2 <= base <= 16
    ensures |s| >= 1
    ensures forall i :: 0 <= i < |s| ==> IsDigitChar(s[i])
    decreases n
  {
    if n < base then [DigitChar(n)]
    else
      DivDecreases(n, base);
      var d := DigitChar(n % base);
      NatToString(n / base, base) + [d]
  }

  /** `format!("{n}")` for a signed integer. */
  function IntToString(n: int): string {
    if n < 0 then "-" + NatToString(-n, 10) else NatToString(n, 10)
  }

  /** Value of a digit character. */
  function DigitValue(c: char): nat {
    if '0' <= c <= '9' then c as int - '0' as int
    else if 'a' <= c <= 'f' then c as int - 'a' as int + 10
    else 0
  }

  /** Reads the digits back. */
  function ParseNat(s: string, base: nat): nat
    decreases |s|
  {
    if |s| == 0 then 0 else ParseNat(s[..|s| - 1], base) * base + DigitValue(s[|s| - 1])
  }

  function ParseInt(s: string): int {
    if |s| > 0 && s[0] == '-' then -(ParseNat(s[1..], 10) as int) else ParseNat(s, 10)
  }

  lemma DigitValueOfChar(d: nat)
    requires d < 16
    ensures DigitValue(DigitChar(d)) == d
  {
  }

  lemma DivMod(n: nat, base: nat)
    requires base > 0
    ensures n == (n / base) * base + n % base
  {
  }

  lemma ParseNatSnoc(p: string, c: char, base: nat)
    ensures ParseNat(p + [c], base) == ParseNat(p, base) * base + DigitValue(c)
  {
    assert (p + [c])[..|p + [c]| - 1] == p;
  }

  /** Formatting a natural number and reading it back is the identity. */
  lemma {:induction false} ParseNatToString(n: nat, base: nat)
    requires 2 <= base <= 16
    ensures ParseNat(NatToString(n, base), base) == n
    decreases n
  {
    if n < base {
      ParseNatOneDigit(n, base);
    } else {
      DivDecreases(n, base);
      ParseNatToString(n / base, base);
      ParseNatToStringStep(n, base);
    }
  }

  lemma ParseNatOneDigit(d: nat, base: nat)
    requires d < base <= 16
    ensures ParseNat([DigitChar(d)], base) == d
  {
    DigitValueOfChar(d);
    ParseNatSnoc("", DigitChar(d), base);
    assert "" + [DigitChar(d)] == [DigitChar(d)];
  }

  lemma DivDecreases(n: nat, base: nat)
    requires 2 <= base && n >= base
    ensures n / base < n
  {
    var q := n / base;
    assert n == q * base + n % base;
    MulAtLeastDouble(q, base);
  }

  lemma {:induction false} MulAtLeastDouble(q: nat, b: nat)
    requires b >= 2
    ensures q * b >= 2 * q
    decreases b
  {
    if b > 2 {
      MulAtLeastDouble(q, b - 1);
      assert q * b == q * (b - 1) + q;
    }
  }

  /** One digit more: the step of `ParseNatToString`. */
  lemma ParseNatToStringStep(n: nat, base: nat)
    requires 2 <= base <= 16 && n >= base
    requires ParseNat(NatToString(n / base, base), base) == n / base
    ensures ParseNat(NatToString(n, base), base) == n
  {
    ParseNatDigitStep(NatToString(n / base, base), n / base, n % base, base);
    DivMod(n, base);
  }

  lemma ParseNatDigitStep(p: string, q: nat, d: nat, base: nat)
    requires d < 16 && ParseNat(p, base) == q
    ensures ParseNat(p + [DigitChar(d)], base) == q * base + d
  {
    DigitValueOfChar(d);
    ParseNatSnoc(p, DigitChar(d), base);
  }

  /** The decimal rendering of a status code determines the code. */
  lemma IntToStringRoundTrip(n: int)
    ensures ParseInt(IntToString(n)) == n
  {
    var d := NatToString(if n < 0 then -n else n, 10);
    ParseNatToString(if n < 0 then -n else n, 10);
    if n < 0 {
      assert ("-" + d)[1..] == d;
    } else {
      assert d[0] != '-';
    }
  }
}

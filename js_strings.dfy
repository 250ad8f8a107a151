/** The ECMAScript string primitives the booking form relies on:
    `String.prototype.trim`, `.length` (counted in UTF-16 code units),
    `split` on a single character and `parseInt(v, 10)`, together with the
    zero-padded decimal rendering used by date formatting. */
module JsStrings {
  import opened Wrappers

  /** A WhiteSpace or LineTerminator code point of ECMAScript: the characters
      that `trim` and `parseInt` skip and that the regular-expression class
      `\s` matches. */
  predicate IsJsSpace(c: char) {
    c == '\t' || c == '\n' || c == '\U{B}' || c == '\U{C}' || c == '\r' || c == ' '
    || c == '\U{A0}' || c == '\U{1680}' || ('\U{2000}' <= c <= '\U{200A}')
    || c == '\U{2028}' || c == '\U{2029}' || c == '\U{202F}' || c == '\U{205F}'
    || c == '\U{3000}' || c == '\U{FEFF}'
  }

  /** Drops the longest whitespace prefix. */
  function TrimStart(s: string): (r: string)
    ensures |r| <= |s| && r == s[|s| - |r|..]
    ensures forall k :: 0 <= k < |s| - |r| ==> IsJsSpace(s[k])
    ensures r != [] ==> !IsJsSpace(r[0])
  {
    if s != [] && IsJsSpace(s[0]) then TrimStart(s[1..]) else s
  }

  /** Drops the longest whitespace suffix. */
  function TrimEnd(s: string): (r: string)
    ensures |r| <= |s| && r == s[..|r|]
    ensures forall k :: |r| <= k < |s| ==> IsJsSpace(s[k])
    ensures r != [] ==> !IsJsSpace(r[|r| - 1])
  {
    if s != [] && IsJsSpace(s[|s| - 1]) then TrimEnd(s[..|s| - 1]) else s
  }

  /** `String.prototype.trim`: whitespace removed from both ends. */
  function Trim(s: string): string {
    TrimEnd(TrimStart(s))
  }

  lemma TrimStartKeeps(r: string)
    requires r == [] || !IsJsSpace(r[0])
    ensures TrimStart(r) == r
  {
  }

  lemma TrimEndKeeps(r: string)
    requires r == [] || !IsJsSpace(r[|r| - 1])
    ensures TrimEnd(r) == r
  {
  }

  /** The result of `trim` neither starts nor ends with whitespace. */
  lemma TrimIsTrimmed(s: string)
    ensures Trim(s) != [] ==> !IsJsSpace(Trim(s)[0]) && !IsJsSpace(Trim(s)[|Trim(s)| - 1])
  {
    var t := TrimStart(s);
    var r := TrimEnd(t);
    assert r != [] ==> r[0] == t[0];
  }

  /** Trimming twice is trimming once. */
  lemma TrimIdempotent(s: string)
    ensures Trim(Trim(s)) == Trim(s)
  {
    var t := TrimStart(s);
    var r := TrimEnd(t);
    assert r != [] ==> r[0] == t[0];
    TrimStartKeeps(r);
    TrimEndKeeps(r);
  }

  /** `.length` of a JavaScript string: code points outside the Basic
      Multilingual Plane take two UTF-16 code units. */
  function Utf16Length(s: string): (n: nat)
    ensures |s| <= n <= 2 * |s|
    ensures (forall i :: 0 <= i < |s| ==> s[i] as int < 0x1_0000) ==> n == |s|
  {
    if s == [] then 0
    else (if s[0] as int < 0x1_0000 then 1 else 2) + Utf16Length(s[1..])
  }

  // ---------------------------------------------------------------------
  // split / join on one separator character
  // ---------------------------------------------------------------------

  /** `s.split(sep)` for a one-character separator: the maximal
      separator-free pieces, always at least one. */
  function Split(s: string, sep: char): (parts: seq<string>)
    ensures |parts| >= 1
    ensures forall i :: 0 <= i < |parts| ==> sep !in parts[i]
    decreases |s|
  {
    if s == [] then [[]]
    else
      var rest := Split(s[1..], sep);
      if s[0] == sep then [[]] + rest
      else [[s[0]] + rest[0]] + rest[1..]
  }

  /** `parts.join(sep)`. */
  function Join(parts: seq<string>, sep: char): string
    decreases |parts|
  {
    if parts == [] then []
    else if |parts| == 1 then parts[0]
    else parts[0] + [sep] + Join(parts[1..], sep)
  }

  /** Splitting after a separator-free prefix glues that prefix to the
      first piece. */
  lemma {:induction false} SplitPrefix(p: string, t: string, sep: char)
    requires sep !in p
    ensures Split(p + t, sep) == [p + Split(t, sep)[0]] + Split(t, sep)[1..]
    decreases |p|
  {
    if p != [] {
      assert (p + t)[0] == p[0] && p[0] != sep;
      assert (p + t)[1..] == p[1..] + t;
      SplitPrefix(p[1..], t, sep);
      var rest := Split(p[1..] + t, sep);
      assert Split(p + t, sep) == [[p[0]] + rest[0]] + rest[1..];
      assert rest[0] == p[1..] + Split(t, sep)[0];
      assert [p[0]] + (p[1..] + Split(t, sep)[0]) == p + Split(t, sep)[0];
    } else {
      assert p + t == t;
      assert p + Split(t, sep)[0] == Split(t, sep)[0];
      assert [p + Split(t, sep)[0]] + Split(t, sep)[1..] == Split(t, sep);
    }
  }

  /** Joining the pieces of a split gives the string back. */
  lemma {:induction false} JoinSplit(s: string, sep: char)
    ensures Join(Split(s, sep), sep) == s
    decreases |s|
  {
    if s != [] {
      JoinSplit(s[1..], sep);
      var rest := Split(s[1..], sep);
      if s[0] == sep {
        assert Split(s, sep) == [[]] + rest;
        assert s == [sep] + s[1..];
      } else {
        var parts := Split(s, sep);
        assert parts == [[s[0]] + rest[0]] + rest[1..];
        if |rest| == 1 {
          assert s == [s[0]] + s[1..];
        } else {
          assert parts[1..] == rest[1..];
          assert Join(rest, sep) == rest[0] + [sep] + Join(rest[1..], sep);
          assert s == [s[0]] + s[1..];
        }
      }
    }
  }

  /** Splitting the join of separator-free pieces gives the pieces back. */
  lemma {:induction false} SplitJoin(parts: seq<string>, sep: char)
    requires |parts| >= 1
    requires forall i :: 0 <= i < |parts| ==> sep !in parts[i]
    ensures Split(Join(parts, sep), sep) == parts
    decreases |parts|
  {
    if |parts| == 1 {
      SplitPrefix(parts[0], [], sep);
      assert parts[0] + [] == parts[0];
    } else {
      var tail := Join(parts[1..], sep);
      SplitJoin(parts[1..], sep);
      SplitPrefix(parts[0], [sep] + tail, sep);
      assert parts[0] + [sep] + tail == parts[0] + ([sep] + tail);
      assert ([sep] + tail)[1..] == tail;
      assert Split([sep] + tail, sep) == [[]] + parts[1..];
      assert parts[0] + [] == parts[0];
      assert [parts[0]] + parts[1..] == parts;
    }
  }

  /** Two separator-free pieces joined by the separator split back apart. */
  lemma SplitPair(a: string, b: string, sep: char)
    requires sep !in a && sep !in b
    ensures Split(a + [sep] + b, sep) == [a, b]
  {
    assert [a, b][1..] == [b];
    SplitJoin([a, b], sep);
  }

  /** Every piece of a split is made of characters of the input, so a
      property of all input characters holds of all piece characters. */
  lemma {:induction false} SplitKeeps(s: string, sep: char, p: char -> bool)
    requires forall k :: 0 <= k < |s| ==> p(s[k])
    ensures forall i, k :: 0 <= i < |Split(s, sep)| && 0 <= k < |Split(s, sep)[i]| ==> p(Split(s, sep)[i][k])
    decreases |s|
  {
    if s != [] {
      SplitKeeps(s[1..], sep, p);
    }
  }

  /** Cuts `s` at the first occurrence of `c`: the text before it and the
      text after it; None when `c` does not occur. */
  function SplitAtFirst(s: string, c: char): (r: Option<(string, string)>)
    ensures r.None? <==> c !in s
    ensures r.Some? ==> c !in r.value.0 && s == r.value.0 + [c] + r.value.1
  {
    if s == [] then None
    else if s[0] == c then Some(([], s[1..]))
    else
      match SplitAtFirst(s[1..], c)
      case None => None
      case Some((before, after)) => Some(([s[0]] + before, after))
  }

  /** Cutting at the first `c` undoes gluing a `c`-free head to a tail. */
  lemma {:induction false} SplitAtFirstOf(head: string, c: char, tail: string)
    requires c !in head
    ensures SplitAtFirst(head + [c] + tail, c) == Some((head, tail))
    decreases |head|
  {
    var s := head + [c] + tail;
    if head == [] {
      assert s[0] == c && s[1..] == tail;
    } else {
      assert s[0] == head[0] && s[1..] == head[1..] + [c] + tail;
      SplitAtFirstOf(head[1..], c, tail);
      assert [head[0]] + head[1..] == head;
    }
  }

  // ---------------------------------------------------------------------
  // decimal digits
  // ---------------------------------------------------------------------

  predicate IsDigit(c: char) {
    '0' <= c <= '9'
  }

  predicate AllDigits(s: string) {
    forall i :: 0 <= i < |s| ==> IsDigit(s[i])
  }

  function DigitValue(c: char): nat
    requires IsDigit(c)
  {
    c as int - '0' as int
  }

  /** The number a string of decimal digits denotes (leading zeros allowed). */
  function DigitsValue(s: string): nat
    requires AllDigits(s)
  {
    if s == [] then 0 else DigitsValue(s[..|s| - 1]) * 10 + DigitValue(s[|s| - 1])
  }

  function DigitChar(d: nat): (c: char)
    requires d < 10
    ensures IsDigit(c) && DigitValue(c) == d
  {
    ('0' as int + d) as char
  }

  /** A string of digits contains no character that is not a digit. */
  lemma NoSeparatorInDigits(s: string, c: char)
    requires AllDigits(s) && !IsDigit(c)
    ensures c !in s
  {
    forall k | 0 <= k < |s| ensures s[k] != c {
      assert IsDigit(s[k]);
    }
  }

  /** The shortest decimal rendering of `n`. */
  function Decimal(n: nat): (r: string)
    ensures r != [] && AllDigits(r)
    ensures DigitsValue(r) == n
  {
    if n < 10 then [DigitChar(n)]
    else
      var p := Decimal(n / 10);
      var r := p + [DigitChar(n % 10)];
      assert r[..|r| - 1] == p;
      r
  }

  function Zeros(k: nat): (z: string)
    ensures |z| == k && AllDigits(z)
  {
    seq(k, _ => '0')
  }

  /** Leading zeros do not change the value of a digit string. */
  lemma {:induction false} LeadingZeros(k: nat, s: string)
    requires AllDigits(s)
    ensures AllDigits(Zeros(k) + s) && DigitsValue(Zeros(k) + s) == DigitsValue(s)
    decreases |s|, k
  {
    var z := Zeros(k) + s;
    if s == [] {
      assert z == Zeros(k);
      if k > 0 {
        assert z[..|z| - 1] == Zeros(k - 1) + [];
        LeadingZeros(k - 1, []);
      }
    } else {
      assert z[..|z| - 1] == Zeros(k) + s[..|s| - 1];
      LeadingZeros(k, s[..|s| - 1]);
    }
  }

  /** `n` rendered in decimal and left-padded with zeros to at least `width`
      digits, as date-fns renders `dd`, `MM` and `yyyy`. */
  function ZeroPad(n: nat, width: nat): (r: string)
    ensures r != [] && AllDigits(r)
    ensures |r| == if |Decimal(n)| >= width then |Decimal(n)| else width
    ensures DigitsValue(r) == n
  {
    var d := Decimal(n);
    if |d| >= width then d
    else
      LeadingZeros(width - |d|, d);
      Zeros(width - |d|) + d
  }

  function Pow10(k: nat): (p: nat)
    ensures p >= 1
  {
    if k == 0 then 1 else 10 * Pow10(k - 1)
  }

  /** A number below 10^k takes at most k decimal digits. */
  lemma {:induction false} DecimalLength(n: nat, k: nat)
    requires 1 <= k && n < Pow10(k)
    ensures |Decimal(n)| <= k
    decreases k
  {
    if n >= 10 {
      assert Pow10(k) == 10 * Pow10(k - 1);
      if k == 1 {
        assert false;
      } else {
        DecimalLength(n / 10, k - 1);
      }
    }
  }

  // ---------------------------------------------------------------------
  // parseInt(v, 10)
  // ---------------------------------------------------------------------

  /** The longest prefix made of decimal digits. */
  function DigitPrefix(s: string): (z: string)
    ensures AllDigits(z) && z <= s
    ensures |z| < |s| ==> !IsDigit(s[|z|])
  {
    if s != [] && IsDigit(s[0]) then [s[0]] + DigitPrefix(s[1..]) else []
  }

  /** `parseInt(s, 10)`, with None standing for NaN: leading whitespace is
      skipped, one sign is read, then the longest run of digits; no digits
      means NaN. Trailing text is ignored. */
  function ParseInt(s: string): Option<int> {
    var t := TrimStart(s);
    var negative := t != [] && t[0] == '-';
    var u := if t != [] && (t[0] == '-' || t[0] == '+') then t[1..] else t;
    var z := DigitPrefix(u);
    var magnitude: int := DigitsValue(z);
    if z == [] then None else Some(if negative then -magnitude else magnitude)
  }

  lemma {:induction false} DigitPrefixOf(z: string, rest: string)
    requires AllDigits(z) && (rest == [] || !IsDigit(rest[0]))
    ensures DigitPrefix(z + rest) == z
    decreases |z|
  {
    if z == [] {
      assert z + rest == rest;
    } else {
      assert (z + rest)[1..] == z[1..] + rest;
      DigitPrefixOf(z[1..], rest);
      assert [z[0]] + z[1..] == z;
    }
  }

  /** A run of digits followed by anything that is not a digit parses to the
      value of the digits. */
  lemma ParseIntDigits(z: string, rest: string)
    requires z != [] && AllDigits(z)
    requires rest == [] || !IsDigit(rest[0])
    ensures ParseInt(z + rest) == Some(DigitsValue(z))
  {
    assert !IsJsSpace((z + rest)[0]);
    assert TrimStart(z + rest) == z + rest;
    DigitPrefixOf(z, rest);
  }

  /** A string without any digit is NaN to `parseInt`. */
  lemma ParseIntNoDigits(s: string)
    requires forall i :: 0 <= i < |s| ==> !IsDigit(s[i])
    ensures ParseInt(s) == None
  {
    var t := TrimStart(s);
    assert forall k :: 0 <= k < |t| ==> !IsDigit(t[k]) by {
      assert t == s[|s| - |t|..];
      assert forall k :: 0 <= k < |t| ==> t[k] == s[|s| - |t| + k];
    }
    var u := if t != [] && (t[0] == '-' || t[0] == '+') then t[1..] else t;
    assert u == [] || u[0] == t[|t| - |u|];
    assert DigitPrefix(u) == [];
  }
}

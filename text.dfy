/**
 * String and byte helpers with the semantics of the Python built-ins the
 * application relies on: `str.isspace`, `str.strip`, `str.split()`,
 * `str.startswith`, `in`, `str.replace`, `str(int)` and `str.encode()`.
 */
module Text {

  datatype Option<+T> = None | Some(value: T)

  type byte = x: int | 0 <= x < 256

  /** No element of `s` occurs twice. */
  predicate Distinct<T(==)>(s: seq<T>) {
    forall i, j :: 0 <= i < j < |s| ==> s[i] != s[j]
  }

  /** Python's `str.isspace()` for one character: the whitespace set that
      `str.split()` and `str.strip()` (without arguments) use. */
  predicate IsPySpace(c: char) {
    var n := c as int;
    n == 0x20 || 0x09 <= n <= 0x0D || 0x1C <= n <= 0x1F || n == 0x85 || n == 0xA0
    || n == 0x1680 || 0x2000 <= n <= 0x200A || n == 0x2028 || n == 0x2029
    || n == 0x202F || n == 0x205F || n == 0x3000
  }

  /** Every character of `s` is whitespace (this includes the empty string). */
  predicate IsBlank(s: string) {
    forall i :: 0 <= i < |s| ==> IsPySpace(s[i])
  }

  /** `s.lstrip()`: the suffix of `s` left after dropping leading whitespace. */
  function LStrip(s: string): (r: string)
    ensures |r| <= |s| && r == s[|s| - |r|..]
    ensures IsBlank(s[..|s| - |r|])
    ensures r == [] || !IsPySpace(r[0])
  {
    if s != [] && IsPySpace(s[0]) then
      var t := LStrip(s[1..]);
      assert s[..|s| - |t|] == [s[0]] + s[1..][..|s[1..]| - |t|];
      t
    else s
  }

  /** `s.rstrip()`: the prefix of `s` left after dropping trailing whitespace. */
  function RStrip(s: string): (r: string)
    ensures |r| <= |s| && r == s[..|r|]
    ensures IsBlank(s[|r|..])
    ensures r == [] || !IsPySpace(r[|r| - 1])
  {
    if s != [] && IsPySpace(s[|s| - 1]) then
      var t := RStrip(s[..|s| - 1]);
      assert s[|t|..] == s[..|s| - 1][|t|..] + [s[|s| - 1]];
      t
    else s
  }

  /** `s.strip()`. */
  function Strip(s: string): (r: string)
    ensures |r| <= |s|
    ensures r == [] || (!IsPySpace(r[0]) && !IsPySpace(r[|r| - 1]))
  {
    RStrip(LStrip(s))
  }

  /** Stripping leaves nothing exactly when the string is all whitespace:
      Python's `not s.strip()`. */
  lemma {:induction false} StripEmptyIffBlank(s: string)
    ensures Strip(s) == [] <==> IsBlank(s)
  {
    var l := LStrip(s);
    if !IsBlank(s) {
      var i :| 0 <= i < |s| && !IsPySpace(s[i]);
      assert i >= |s| - |l|;
      assert l != [];
      assert !IsPySpace(l[0]);
    }
  }

  /** A string with no leading or trailing whitespace comes back unchanged. */
  lemma {:induction false} StripOfStripped(s: string)
    requires s == [] || (!IsPySpace(s[0]) && !IsPySpace(s[|s| - 1]))
    ensures Strip(s) == s
  {
  }

  /** The longest prefix of `s` without whitespace. */
  function TakeWord(s: string): (r: string)
    ensures |r| <= |s| && r == s[..|r|]
    ensures forall i :: 0 <= i < |r| ==> !IsPySpace(r[i])
    ensures |r| == |s| || IsPySpace(s[|r|])
    ensures s != [] && !IsPySpace(s[0]) ==> r != []
  {
    if s == [] || IsPySpace(s[0]) then []
    else
      var t := TakeWord(s[1..]);
      [s[0]] + t
  }

  /** `s.split()`: the maximal runs of non-whitespace characters, in order. */
  function Words(s: string): (r: seq<string>)
    ensures |r| <= |s|
    decreases |s|
  {
    var t := LStrip(s);
    if t == [] then []
    else
      var w := TakeWord(t);
      [w] + Words(t[|w|..])
  }

  lemma {:induction false} WordsUnfold(s: string)
    ensures LStrip(s) == [] ==> Words(s) == []
    ensures LStrip(s) != [] ==>
              var w := TakeWord(LStrip(s));
              Words(s) == [w] + Words(LStrip(s)[|w|..])
  {
    var t := LStrip(s);
    if t != [] {
      var w := TakeWord(t);
      assert Words(s) == [w] + Words(t[|w|..]);
    }
  }

  /** A non-empty run of non-whitespace characters. */
  predicate IsToken(w: string) {
    w != [] && forall i :: 0 <= i < |w| ==> !IsPySpace(w[i])
  }

  /** Every token of `s.split()` is a non-empty run of non-whitespace characters. */
  lemma {:induction false} WordsAreTokens(s: string)
    ensures forall k :: 0 <= k < |Words(s)| ==> IsToken(Words(s)[k])
    decreases |s|
  {
    var t := LStrip(s);
    if t != [] {
      var w := TakeWord(t);
      var rest := t[|w|..];
      assert IsToken(w) by {
        assert !IsPySpace(t[0]);
      }
      WordsAreTokens(rest);
      WordsUnfold(s);
      TokensCons(w, Words(rest));
    }
  }

  lemma {:induction false} TokensCons(w: string, ws: seq<string>)
    requires IsToken(w) && forall k :: 0 <= k < |ws| ==> IsToken(ws[k])
    ensures forall k :: 0 <= k < |[w] + ws| ==> IsToken(([w] + ws)[k])
  {
  }

  /** Independent count of words: positions holding a non-whitespace
      character whose predecessor is whitespace (or which is first); `afterSpace`
      says whether the character before `s` was whitespace. */
  function WordStarts(s: string, afterSpace: bool): nat
  {
    if s == [] then 0
    else (if afterSpace && !IsPySpace(s[0]) then 1 else 0) + WordStarts(s[1..], IsPySpace(s[0]))
  }

  lemma {:induction false} WordStartsBlankPrefix(b: string, t: string)
    requires IsBlank(b)
    ensures WordStarts(b + t, true) == WordStarts(t, true)
    decreases |b|
  {
    if b != [] {
      assert (b + t)[0] == b[0] && IsPySpace(b[0]);
      assert (b + t)[1..] == b[1..] + t;
      WordStartsBlankPrefix(b[1..], t);
    } else {
      assert b + t == t;
    }
  }

  lemma {:induction false} WordStartsWordPrefix(w: string, t: string)
    requires w != [] && forall i :: 0 <= i < |w| ==> !IsPySpace(w[i])
    requires t == [] || IsPySpace(t[0])
    ensures WordStarts(w + t, true) == 1 + WordStarts(t, true)
  {
    assert (w + t)[1..] == w[1..] + t;
    WordStartsInWord(w[1..], t);
  }

  lemma {:induction false} WordStartsInWord(w: string, t: string)
    requires forall i :: 0 <= i < |w| ==> !IsPySpace(w[i])
    requires t == [] || IsPySpace(t[0])
    ensures WordStarts(w + t, false) == WordStarts(t, true)
    decreases |w|
  {
    if w == [] {
      assert w + t == t;
    } else {
      assert (w + t)[1..] == w[1..] + t;
      WordStartsInWord(w[1..], t);
    }
  }

  /** The number of tokens of `s.split()` is the number of word starts. */
  lemma {:induction false} WordsCountsWordStarts(s: string)
    ensures |Words(s)| == WordStarts(s, true)
    decreases |s|
  {
    var t := LStrip(s);
    var b := s[..|s| - |t|];
    assert s == b + t;
    WordStartsBlankPrefix(b, t);
    if t != [] {
      var w := TakeWord(t);
      var rest := t[|w|..];
      assert t == w + rest;
      WordsUnfold(s);
      WordStartsWordPrefix(w, rest);
      WordsCountsWordStarts(rest);
    }
  }

  /** `s.split()` is empty exactly when `s` is all whitespace. */
  lemma {:induction false} WordsEmptyIffBlank(s: string)
    ensures Words(s) == [] <==> IsBlank(s)
  {
    var t := LStrip(s);
    if !IsBlank(s) {
      var i :| 0 <= i < |s| && !IsPySpace(s[i]);
      assert i >= |s| - |t|;
    }
  }

  /** `s.startswith(p)`. */
  predicate StartsWith(s: string, p: string) {
    |p| <= |s| && s[..|p|] == p
  }

  /** A string whose first character is not `c` does not start with `c`. */
  lemma {:induction false} NotStartsWithChar(s: string, c: char)
    requires s != [] && s[0] != c
    ensures !StartsWith(s, [c])
  {
    assert s[..1] != [c] by {
      assert s[..1][0] == s[0];
    }
  }

  /** `s.endswith(p)`. */
  predicate EndsWith(s: string, p: string) {
    |p| <= |s| && s[|s| - |p|..] == p
  }

  lemma {:induction false} StartsWithTransitive(s: string, t: string, u: string)
    requires StartsWith(s, t) && StartsWith(t, u)
    ensures StartsWith(s, u)
  {
    assert s[..|u|] == t[..|u|];
  }

  lemma {:induction false} EndsWithTransitive(s: string, t: string, u: string)
    requires EndsWith(s, t) && EndsWith(t, u)
    ensures EndsWith(s, u)
  {
    assert s[|s| - |u|..] == t[|t| - |u|..];
  }

  /** Every character of the stripped string comes from the original. */
  lemma {:induction false} StripKeepsCharacters(s: string)
    ensures forall c :: c in Strip(s) ==> c in s
  {
    var l := LStrip(s);
    var r := RStrip(l);
    assert r == Strip(s);
    var k := |s| - |l|;
    assert l == s[k..] && r == l[..|r|];
    assert r == s[k..k + |r|];
  }

  /** Python's `p in s` for strings. */
  predicate Contains(s: string, p: string)
    decreases |s|
  {
    StartsWith(s, p) || (s != [] && Contains(s[1..], p))
  }

  /** `s.replace(pat, rep)`: every leftmost non-overlapping occurrence of
      `pat` replaced by `rep`. */
  function ReplaceAll(s: string, pat: string, rep: string): (r: string)
    requires pat != []
    ensures !Contains(s, pat) ==> r == s
    decreases |s|
  {
    if s == [] then []
    else if StartsWith(s, pat) then rep + ReplaceAll(s[|pat|..], pat, rep)
    else [s[0]] + ReplaceAll(s[1..], pat, rep)
  }

  /** Replacing a single character by a single character maps the string
      position by position. */
  lemma {:induction false} ReplaceCharPointwise(s: string, a: char, b: char)
    ensures |ReplaceAll(s, [a], [b])| == |s|
    ensures forall i :: 0 <= i < |s| ==>
              ReplaceAll(s, [a], [b])[i] == if s[i] == a then b else s[i]
    decreases |s|
  {
    if s != [] {
      ReplaceCharPointwise(s[1..], a, b);
      var t := ReplaceAll(s[1..], [a], [b]);
      if StartsWith(s, [a]) {
        assert s[1..] == s[|[a]|..];
        assert ReplaceAll(s, [a], [b]) == [b] + t;
      } else {
        assert ReplaceAll(s, [a], [b]) == [s[0]] + t;
      }
    }
  }

  /** Index of the last occurrence of `c` in `s`, if any. */
  function LastIndexOf(s: string, c: char): (r: Option<nat>)
    ensures r.Some? ==> r.value < |s| && s[r.value] == c
                        && forall i :: r.value < i < |s| ==> s[i] != c
    ensures r.None? ==> forall i :: 0 <= i < |s| ==> s[i] != c
  {
    if s == [] then None
    else if s[|s| - 1] == c then Some(|s| - 1)
    else LastIndexOf(s[..|s| - 1], c)
  }

  function DigitChar(d: nat): (c: char)
    requires d < 10
    ensures '0' <= c <= '9'
  {
    (('0' as int) + d) as char
  }

  function DigitValue(c: char): nat
    requires '0' <= c <= '9'
  {
    (c as int) - ('0' as int)
  }

  /** Decimal rendering of a natural number, as Python's `str(n)`. */
  function NatToDecimal(n: nat): (r: string)
    ensures r != []
    ensures forall i :: 0 <= i < |r| ==> '0' <= r[i] <= '9'
    ensures r[0] == '0' ==> n == 0
  {
    if n < 10 then [DigitChar(n)] else NatToDecimal(n / 10) + [DigitChar(n % 10)]
  }

  /** The value of a string of decimal digits. */
  function DecimalValue(s: string): nat
    requires forall i :: 0 <= i < |s| ==> '0' <= s[i] <= '9'
  {
    if s == [] then 0 else 10 * DecimalValue(s[..|s| - 1]) + DigitValue(s[|s| - 1])
  }

  /** `s` is a run of decimal digits whose value is `n`. */
  predicate ReadsAs(s: string, n: nat)
  {
    (forall i :: 0 <= i < |s| ==> '0' <= s[i] <= '9') && DecimalValue(s) == n
  }

  lemma {:induction false} DecimalRoundTrip(n: nat)
    ensures DecimalValue(NatToDecimal(n)) == n
  {
    if n >= 10 {
      var r := NatToDecimal(n);
      var d := NatToDecimal(n / 10);
      assert r == d + [DigitChar(n % 10)];
      assert r[..|r| - 1] == d;
      DecimalRoundTrip(n / 10);
    }
  }

  /** `str(i)` for any integer. */
  function IntToString(i: int): (r: string)
    ensures r != []
    ensures i >= 0 ==> r == NatToDecimal(i)
    ensures i < 0 ==> r == "-" + NatToDecimal(-i)
  {
    if i < 0 then "-" + NatToDecimal(-i) else NatToDecimal(i)
  }

  /** UTF-8 encoding of one Unicode scalar value. */
  function Utf8Char(c: char): (r: seq<byte>)
    ensures 1 <= |r| <= 4
    ensures |r| == 1 <==> c as int < 0x80
    ensures |r| == 1 ==> r[0] == c as int
  {
    var n := c as int;
    if n < 0x80 then [n]
    else if n < 0x800 then [0xC0 + n / 0x40, 0x80 + n % 0x40]
    else if n < 0x10000 then [0xE0 + n / 0x1000, 0x80 + (n / 0x40) % 0x40, 0x80 + n % 0x40]
    else [0xF0 + n / 0x40000, 0x80 + (n / 0x1000) % 0x40, 0x80 + (n / 0x40) % 0x40, 0x80 + n % 0x40]
  }

  /** `s.encode()` with Python's default codec, UTF-8. */
  function Utf8(s: string): (r: seq<byte>)
    ensures |s| <= |r| <= 4 * |s|
  {
    if s == [] then [] else Utf8Char(s[0]) + Utf8(s[1..])
  }

  /** How many bytes the UTF-8 sequence starting with `lead` has; 0 for a
      byte that cannot start one. */
  function Utf8SeqLength(lead: byte): nat {
    if lead < 0x80 then 1
    else if 0xC2 <= lead < 0xE0 then 2
    else if 0xE0 <= lead < 0xF0 then 3
    else if 0xF0 <= lead < 0xF5 then 4
    else 0
  }

  predicate IsContinuation(b: byte) {
    0x80 <= b < 0xC0
  }

  /** The smallest and largest code point a sequence of `n` bytes may carry,
      so that overlong forms are rejected. */
  function MinScalar(n: nat): int {
    if n == 1 then 0 else if n == 2 then 0x80 else if n == 3 then 0x800 else 0x10000
  }

  function MaxScalar(n: nat): int {
    if n == 1 then 0x7F else if n == 2 then 0x7FF else if n == 3 then 0xFFFF else 0x10FFFF
  }

  /** The code point one well-formed UTF-8 sequence stands for. */
  function DecodeScalar(bs: seq<byte>): Option<char>
    requires 1 <= |bs| <= 4
  {
    var b0: int := bs[0];
    var v: int :=
      if |bs| == 1 then b0
      else if |bs| == 2 then (b0 - 0xC0) * 0x40 + (bs[1] as int - 0x80)
      else if |bs| == 3 then (b0 - 0xE0) * 0x1000 + (bs[1] as int - 0x80) * 0x40 + (bs[2] as int - 0x80)
      else (b0 - 0xF0) * 0x40000 + (bs[1] as int - 0x80) * 0x1000 + (bs[2] as int - 0x80) * 0x40 + (bs[3] as int - 0x80);
    if && (forall i :: 1 <= i < |bs| ==> IsContinuation(bs[i]))
       && MinScalar(|bs|) <= v <= MaxScalar(|bs|) && !(0xD800 <= v < 0xE000)
    then Some(v as char)
    else None
  }

  /** `bytes.decode()`: UTF-8 decoding, `None` where the bytes are malformed. */
  function Utf8Decode(b: seq<byte>): Option<string>
    decreases |b|
  {
    if b == [] then Some([])
    else
      var n := Utf8SeqLength(b[0]);
      if n == 0 || |b| < n then None
      else match DecodeScalar(b[..n])
        case None => None
        case Some(c) =>
          match Utf8Decode(b[n..])
          case None => None
          case Some(rest) => Some([c] + rest)
  }

  /** One character's encoding announces its own length and decodes back to it. */
  lemma {:induction false} Utf8CharDecodes(c: char)
    ensures Utf8SeqLength(Utf8Char(c)[0]) == |Utf8Char(c)|
    ensures DecodeScalar(Utf8Char(c)) == Some(c)
  {
    var n := c as int;
    if n >= 0x10000 {
      Utf8FourBytes(c);
    } else if n >= 0x800 {
      Utf8ThreeBytes(c);
    } else if n >= 0x80 {
      Utf8TwoBytes(c);
    }
  }

  lemma {:induction false} Utf8TwoBytes(c: char)
    requires 0x80 <= c as int < 0x800
    ensures Utf8SeqLength(Utf8Char(c)[0]) == 2
    ensures DecodeScalar(Utf8Char(c)) == Some(c)
  {
    var n := c as int;
    var r := Utf8Char(c);
    assert r == [0xC0 + n / 0x40, 0x80 + n % 0x40];
    assert (r[0] as int - 0xC0) * 0x40 + (r[1] as int - 0x80) == n;
  }

  lemma {:induction false} Utf8ThreeBytes(c: char)
    requires 0x800 <= c as int < 0x10000
    ensures Utf8SeqLength(Utf8Char(c)[0]) == 3
    ensures DecodeScalar(Utf8Char(c)) == Some(c)
  {
    var n := c as int;
    var r := Utf8Char(c);
    var hi, mid, lo := n / 0x1000, (n / 0x40) % 0x40, n % 0x40;
    assert r == [0xE0 + hi, 0x80 + mid, 0x80 + lo];
    assert hi * 0x40 + mid == n / 0x40;
    assert hi * 0x1000 + mid * 0x40 + lo == n;
  }

  lemma {:induction false} Utf8FourBytes(c: char)
    requires 0x10000 <= c as int
    ensures Utf8SeqLength(Utf8Char(c)[0]) == 4
    ensures DecodeScalar(Utf8Char(c)) == Some(c)
  {
    var n := c as int;
    var r := Utf8Char(c);
    var top, hi, mid, lo := n / 0x40000, (n / 0x1000) % 0x40, (n / 0x40) % 0x40, n % 0x40;
    assert r == [0xF0 + top, 0x80 + hi, 0x80 + mid, 0x80 + lo];
    assert top * 0x40 + hi == n / 0x1000;
    assert (n / 0x1000) * 0x40 + mid == n / 0x40;
    assert top * 0x40000 + hi * 0x1000 + mid * 0x40 + lo == n;
  }

  /** Decoding undoes `str.encode()`: the encoding loses nothing. */
  lemma {:induction false} Utf8RoundTrip(s: string)
    ensures Utf8Decode(Utf8(s)) == Some(s)
    decreases |s|
  {
    if s != [] {
      var head := Utf8Char(s[0]);
      var b := Utf8(s);
      assert b == head + Utf8(s[1..]);
      Utf8CharDecodes(s[0]);
      assert b[0] == head[0];
      assert b[..|head|] == head;
      assert b[|head|..] == Utf8(s[1..]);
      Utf8RoundTrip(s[1..]);
      assert [s[0]] + s[1..] == s;
    }
  }

  /** An ASCII string encodes to its code points, one byte per character. */
  lemma {:induction false} Utf8Ascii(s: string)
    requires forall i :: 0 <= i < |s| ==> s[i] as int < 0x80
    ensures |Utf8(s)| == |s|
    ensures forall i :: 0 <= i < |s| ==> Utf8(s)[i] == s[i] as int
  {
    if s != [] {
      Utf8Ascii(s[1..]);
    }
  }
}

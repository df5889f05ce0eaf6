/** The parts of `str` the modelled code uses. A string is a sequence of Unicode scalar
    values; `ByteLen` is the length of its UTF-8 encoding. */
module Text {

  /** The Unicode White_Space property, which `str::trim` uses. */
  predicate IsWhitespace(c: char) {
    var n := c as int;
    || 0x09 <= n <= 0x0D || n == 0x20 || n == 0x85 || n == 0xA0 || n == 0x1680
    || 0x2000 <= n <= 0x200A || n == 0x2028 || n == 0x2029 || n == 0x202F || n == 0x205F || n == 0x3000
  }

  function TrimStart(s: string): string {
    if s != "" && IsWhitespace(s[0]) then TrimStart(s[1..]) else s
  }

  function TrimEnd(s: string): string {
    if s != "" && IsWhitespace(s[|s| - 1]) then TrimEnd(s[..|s| - 1]) else s
  }

  /** Exactly the leading whitespace goes. */
  lemma {:induction false} TrimStartSpec(s: string)
    ensures var r := TrimStart(s);
            && |r| <= |s| && r == s[|s| - |r|..]
            && (r == "" || !IsWhitespace(r[0]))
            && forall i :: 0 <= i < |s| - |r| ==> IsWhitespace(s[i])
    decreases |s|
  {
    if s != "" && IsWhitespace(s[0]) {
      TrimStartSpec(s[1..]);
      assert forall i :: 0 < i < |s| ==> s[i] == s[1..][i - 1];
    }
  }

  /** Exactly the trailing whitespace goes. */
  lemma {:induction false} TrimEndSpec(s: string)
    ensures var r := TrimEnd(s);
            && r <= s
            && (r == "" || !IsWhitespace(r[|r| - 1]))
            && forall i :: |r| <= i < |s| ==> IsWhitespace(s[i])
    decreases |s|
  {
    if s != "" && IsWhitespace(s[|s| - 1]) {
      TrimEndSpec(s[..|s| - 1]);
    }
  }

  function Trim(s: string): string {
    TrimEnd(TrimStart(s))
  }

  predicate Blank(s: string) {
    Trim(s) == ""
  }

  /** A string is blank exactly when it is all whitespace. */
  lemma BlankIff(s: string)
    ensures Blank(s) <==> forall i :: 0 <= i < |s| ==> IsWhitespace(s[i])
  {
    var t := TrimStart(s);
    TrimStartSpec(s);
    TrimEndSpec(t);
    assert forall i :: 0 <= i < |t| ==> t[i] == s[|s| - |t| + i];
  }

  /** Not empty, and nothing to trim at either end. */
  predicate Trimmed(s: string) {
    s != "" && !IsWhitespace(s[0]) && !IsWhitespace(s[|s| - 1])
  }

  predicate AllWhitespace(s: string) {
    forall i :: 0 <= i < |s| ==> IsWhitespace(s[i])
  }

  lemma {:induction false} TrimStartPadded(pad: string, s: string)
    requires AllWhitespace(pad) && s != "" && !IsWhitespace(s[0])
    ensures TrimStart(pad + s) == s
    decreases |pad|
  {
    if pad == "" {
      assert pad + s == s;
    } else {
      assert (pad + s)[1..] == pad[1..] + s;
      TrimStartPadded(pad[1..], s);
    }
  }

  lemma {:induction false} TrimEndPadded(s: string, pad: string)
    requires AllWhitespace(pad) && s != "" && !IsWhitespace(s[|s| - 1])
    ensures TrimEnd(s + pad) == s
    decreases |pad|
  {
    if pad == "" {
      assert s + pad == s;
    } else {
      assert (s + pad)[..|s + pad| - 1] == s + pad[..|pad| - 1];
      TrimEndPadded(s, pad[..|pad| - 1]);
    }
  }

  /** Trimming takes the whitespace around a text and nothing else. */
  lemma TrimPadded(left: string, s: string, right: string)
    requires AllWhitespace(left) && Trimmed(s) && AllWhitespace(right)
    ensures Trim(left + s + right) == s
  {
    assert left + s + right == left + (s + right);
    assert (s + right)[0] == s[0];
    TrimStartPadded(left, s + right);
    TrimEndPadded(s, right);
  }

  function Utf8Len(c: char): (n: nat)
    ensures 1 <= n <= 4
  {
    var p := c as int;
    if p < 0x80 then 1 else if p < 0x800 then 2 else if p < 0x10000 then 3 else 4
  }

  function ByteLen(s: string): nat {
    if s == "" then 0 else Utf8Len(s[0]) + ByteLen(s[1..])
  }

  // ---- UTF-8 ----

  newtype Octet = x: int | 0 <= x < 0x100

  /** A continuation octet: the low six bits of `bits`, tagged. */
  function Tail(bits: nat): Octet {
    (0x80 + bits % 0x40) as Octet
  }

  /** The octets of one scalar value, by the table of section 3 of RFC 3629. */
  function Utf8(c: char): seq<Octet> {
    var p := c as int;
    if p < 0x80 then [p as Octet]
    else if p < 0x800 then [(0xC0 + p / 0x40) as Octet, Tail(p)]
    else if p < 0x10000 then [(0xE0 + p / 0x40 / 0x40) as Octet, Tail(p / 0x40), Tail(p)]
    else [(0xF0 + p / 0x40 / 0x40 / 0x40) as Octet, Tail(p / 0x40 / 0x40), Tail(p / 0x40), Tail(p)]
  }

  /** The scalar value an encoding stands for. */
  function CodePoint(octets: seq<Octet>): int {
    match |octets|
    case 1 => octets[0] as int
    case 2 => (octets[0] as int - 0xC0) * 0x40 + (octets[1] as int - 0x80)
    case 3 => (octets[0] as int - 0xE0) * 0x1000 + (octets[1] as int - 0x80) * 0x40 + (octets[2] as int - 0x80)
    case 4 =>
      (octets[0] as int - 0xF0) * 0x40000 + (octets[1] as int - 0x80) * 0x1000
      + (octets[2] as int - 0x80) * 0x40 + (octets[3] as int - 0x80)
    case _ => -1
  }

  /** The encoding can be read back, and `Utf8Len` is its length. */
  lemma Utf8RoundTrip(c: char)
    ensures CodePoint(Utf8(c)) == c as int && |Utf8(c)| == Utf8Len(c)
  {
    var p, octets := c as int, Utf8(c);
    var q := p / 0x40;
    assert p == q * 0x40 + p % 0x40 && q == q / 0x40 * 0x40 + q % 0x40;
    if p >= 0x10000 {
      assert q / 0x40 == q / 0x40 / 0x40 * 0x40 + q / 0x40 % 0x40;
      assert octets[3] as int == 0x80 + p % 0x40 && octets[2] as int == 0x80 + q % 0x40;
    }
  }
}

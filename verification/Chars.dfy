/** Rust's string primitives on sequences of characters: whitespace, trimming, splitting. */
module Chars {
  import opened Common

  /** Unicode White_Space, which `trim` and `split_whitespace` use. */
  predicate IsWhitespace(c: char) {
    var n := c as int;
    || 0x9 <= n <= 0xD || n == 0x20 || n == 0x85 || n == 0xA0 || n == 0x1680
    || 0x2000 <= n <= 0x200A || n == 0x2028 || n == 0x2029 || n == 0x202F || n == 0x205F || n == 0x3000
  }

  function TrimStart(s: string): string {
    if s != "" && IsWhitespace(s[0]) then TrimStart(s[1..]) else s
  }

  function TrimEnd(s: string): string {
    if s != "" && IsWhitespace(s[|s| - 1]) then TrimEnd(s[..|s| - 1]) else s
  }

  function Trim(s: string): string {
    TrimEnd(TrimStart(s))
  }

  lemma TrimKeeps(s: string)
    requires s != "" && !IsWhitespace(s[0]) && !IsWhitespace(s[|s| - 1])
    ensures Trim(s) == s && Trim(" " + s) == s
  {
    assert (" " + s)[1..] == s;
    assert TrimStart(" " + s) == TrimStart(s);
  }

  // ----- words

  predicate NoWhitespace(s: string) {
    forall c <- s :: !IsWhitespace(c)
  }

  predicate IsWord(s: string) {
    s != "" && NoWhitespace(s)
  }

  function TokenEnd(s: string): (n: nat)
    ensures n <= |s| && (forall i :: 0 <= i < n ==> !IsWhitespace(s[i])) && (n < |s| ==> IsWhitespace(s[n]))
  {
    if s == "" || IsWhitespace(s[0]) then 0 else 1 + TokenEnd(s[1..])
  }

  /** `split_whitespace`. */
  function Tokens(s: string): (r: seq<string>)
    ensures forall w <- r :: IsWord(w)
    decreases |s|
  {
    if s == "" then []
    else if IsWhitespace(s[0]) then Tokens(s[1..])
    else
      var n := TokenEnd(s);
      [s[..n]] + Tokens(s[n..])
  }

  function Join(parts: seq<string>, sep: char): string {
    if parts == [] then ""
    else if |parts| == 1 then parts[0]
    else parts[0] + [sep] + Join(parts[1..], sep)
  }

  lemma JoinUnfolds(parts: seq<string>, sep: char)
    requires parts != []
    ensures Join(parts, sep) == if |parts| == 1 then parts[0] else parts[0] + [sep] + Join(parts[1..], sep)
  {
  }

  lemma FirstToken(w: string, rest: string)
    requires IsWord(w) && (rest == "" || IsWhitespace(rest[0]))
    ensures Tokens(w + rest) == [w] + Tokens(rest)
  {
    var s := w + rest;
    assert !IsWhitespace(s[0]);
    var n := TokenEnd(s);
    assert forall i :: 0 <= i < |w| ==> s[i] == w[i];
    assert |w| < |s| ==> s[|w|] == rest[0];
    assert s[..n] == w && s[n..] == rest;
  }

  lemma {:induction false} TokensOfJoin(words: seq<string>)
    requires forall w <- words :: IsWord(w)
    ensures Tokens(Join(words, ' ')) == words
  {
    if |words| == 1 {
      FirstToken(words[0], "");
      assert words[0] + "" == words[0];
    } else if words != [] {
      var rest := Join(words[1..], ' ');
      TokensOfJoin(words[1..]);
      FirstToken(words[0], " " + rest);
      assert (" " + rest)[1..] == rest;
      assert words[0] + " " + rest == words[0] + (" " + rest);
    }
  }

  // ----- splitting

  /** `split(sep)`, which is never empty. */
  function Split(s: string, sep: char): (r: seq<string>)
    ensures |r| > 0
  {
    if s == "" then [""]
    else
      var r := Split(s[1..], sep);
      if s[0] == sep then [""] + r else [[s[0]] + r[0]] + r[1..]
  }

  /** No part holds the separator, and every character of a part is one of the string. */
  lemma {:induction false} PartsOfSplit(s: string, sep: char)
    ensures forall i :: 0 <= i < |Split(s, sep)| ==> sep !in Split(s, sep)[i] && forall c <- Split(s, sep)[i] :: c in s
  {
    if s != "" {
      PartsOfSplit(s[1..], sep);
    }
  }

  lemma {:induction false} FirstPart(p: string, rest: string, sep: char)
    requires sep !in p
    ensures Split(p + [sep] + rest, sep) == [p] + Split(rest, sep)
    ensures Split(p, sep) == [p]
  {
    if p == "" {
      assert ([sep] + rest)[1..] == rest && p + [sep] + rest == [sep] + rest;
    } else {
      FirstPart(p[1..], rest, sep);
      assert (p + [sep] + rest)[1..] == p[1..] + [sep] + rest;
      assert [p[0]] + p[1..] == p;
    }
  }

  lemma {:induction false} SplitOfJoin(parts: seq<string>, sep: char)
    requires parts != [] && forall p <- parts :: sep !in p
    ensures Split(Join(parts, sep), sep) == parts
  {
    JoinUnfolds(parts, sep);
    hide Split, Join;
    if |parts| == 1 {
      FirstPart(parts[0], "", sep);
    } else {
      SplitOfJoin(parts[1..], sep);
      FirstPart(parts[0], Join(parts[1..], sep), sep);
      assert [parts[0]] + parts[1..] == parts;
    }
  }

  /** `split_once(sep)`. */
  function SplitOnce(s: string, sep: char): (r: Option<(string, string)>)
    ensures r.Some? ==> sep !in r.value.0 && s == r.value.0 + [sep] + r.value.1
    ensures r.None? ==> sep !in s
  {
    if s == "" then None
    else if s[0] == sep then Some(("", s[1..]))
    else match SplitOnce(s[1..], sep)
      case Some((head, tail)) => Some(([s[0]] + head, tail))
      case None => None
  }

  lemma SplitOnceAt(head: string, tail: string, sep: char)
    requires sep !in head
    ensures SplitOnce(head + [sep] + tail, sep) == Some((head, tail))
  {
    var s := head + [sep] + tail;
    assert s[|head|] == sep;
    var r := SplitOnce(s, sep);
    var n := |r.value.0|;
    assert s[n] == sep;
    assert forall i :: 0 <= i < |head| ==> s[i] == head[i] != sep;
    assert forall i :: 0 <= i < n ==> s[i] == r.value.0[i] != sep;
    assert s[..n] == head && s[n + 1..] == tail;
    assert s[..n] == r.value.0 && s[n + 1..] == r.value.1;
  }

  // ----- numbers

  function DigitChar(d: nat): char
    requires d < 16
  {
    if d < 10 then ('0' as int + d) as char else ('A' as int + d - 10) as char
  }

  function DigitValue(c: char, radix: nat): Option<nat> {
    var v := if '0' <= c <= '9' then c as int - '0' as int
             else if 'a' <= c <= 'z' then c as int - 'a' as int + 10
             else if 'A' <= c <= 'Z' then c as int - 'A' as int + 10
             else 36;
    if v < radix then Some(v) else None
  }

  function Value(s: string, radix: nat): Option<nat> {
    if s == "" then Some(0)
    else match (Value(s[..|s| - 1], radix), DigitValue(s[|s| - 1], radix))
      case (Some(high), Some(low)) => Some(high * radix + low)
      case _ => None
  }

  /** `from_str_radix` of an unsigned type whose greatest value is `max`; a plus sign is allowed. */
  function ParseRadix(s: string, radix: nat, max: nat): (r: Option<nat>)
    ensures r.Some? ==> r.value <= max
  {
    if s == "" || s == "+" || s == "-" then None
    else match Value(if s[0] == '+' then s[1..] else s, radix)
      case Some(v) => if v <= max then Some(v) else None
      case None => None
  }

  function Decimal(n: nat): (s: string)
    ensures s != "" && forall c <- s :: '0' <= c <= '9'
  {
    if n < 10 then [DigitChar(n)] else Decimal(n / 10) + [DigitChar(n % 10)]
  }

  lemma {:induction false} DecimalValue(n: nat)
    ensures Value(Decimal(n), 10) == Some(n)
  {
    var s := Decimal(n);
    if n < 10 {
      assert s[..|s| - 1] == "";
    } else {
      DecimalValue(n / 10);
      assert s[..|s| - 1] == Decimal(n / 10);
    }
  }

  lemma DecimalParses(n: nat, max: nat)
    requires n <= max
    ensures ParseRadix(Decimal(n), 10, max) == Some(n) && IsWord(Decimal(n))
  {
    DecimalValue(n);
    var s := Decimal(n);
    assert s[0] in s;
  }

  /** `{:02X}`. */
  function HexByte(b: u8): string {
    [DigitChar(b / 16), DigitChar(b % 16)]
  }

  lemma HexParses(b: u8)
    ensures ParseRadix(HexByte(b), 16, 255) == Some(b)
    ensures IsWord(HexByte(b)) && ':' !in HexByte(b)
  {
    var s := HexByte(b);
    assert s[..1] == [DigitChar(b / 16)] && s[..1][..0] == "";
    assert Value(s[..1], 16) == Some(b / 16);
  }

  lemma LowerKeeps(s: string)
    requires forall i :: 0 <= i < |s| ==> !('A' <= s[i] <= 'Z')
    ensures Lower(s) == s
  {
  }

  function Lower(s: string): string {
    seq(|s|, i requires 0 <= i < |s| => if 'A' <= s[i] <= 'Z' then (s[i] as int + 32) as char else s[i])
  }
}

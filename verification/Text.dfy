/** Numbers and words in text, as the Rust library reads them and as kernel and nft print them. */
module Text {
  import opened Net

  // ---- Digits ----

  const DIGITS := "0123456789ABCDEF"

  function DigitValue(c: char): Option<nat> {
    if '0' <= c <= '9' then Some((c - '0') as nat)
    else if 'a' <= c <= 'f' then Some((c - 'a') as nat + 10)
    else if 'A' <= c <= 'F' then Some((c - 'A') as nat + 10)
    else None
  }

  /** The number that digits of a radix up to 16 stand for. */
  function Value(s: string, radix: nat): Option<nat> {
    if |s| == 0 then Some(0)
    else
      var front := Value(s[..|s| - 1], radix);
      var digit := DigitValue(s[|s| - 1]);
      if front.None? || digit.None? || digit.value >= radix then None
      else Some(front.value * radix + digit.value)
  }

  /** `from_str_radix` of an unsigned type: one leading plus is allowed, an empty text is not. */
  function FromStrRadix(s: string, radix: nat, max: nat): (r: Option<nat>)
    ensures r.Some? ==> r.value <= max
  {
    var digits := if |s| > 0 && s[0] == '+' then s[1..] else s;
    if digits == "" then None
    else
      var v := Value(digits, radix);
      if v.None? || v.value > max then None else v
  }

  function Digit(d: nat): char
    requires d < 16
  {
    DIGITS[d]
  }

  lemma DigitReads(d: nat)
    requires d < 16
    ensures DigitValue(Digit(d)) == Some(d)
    ensures '0' <= Digit(d) <= '9' || 'A' <= Digit(d) <= 'F'
    ensures d < 10 ==> '0' <= Digit(d) <= '9'
  {
  }

  /** One more digit at the end. */
  lemma DigitAppends(front: string, d: nat, radix: nat)
    requires d < radix <= 16 && Value(front, radix).Some?
    ensures Value(front + [Digit(d)], radix) == Some(Value(front, radix).value * radix + d)
  {
    DigitReads(d);
    var s := front + [Digit(d)];
    assert s[..|s| - 1] == front && s[|s| - 1] == Digit(d);
  }

  /** `%d` of a natural number. */
  function Decimal(n: nat): string {
    if n < 10 then [Digit(n)] else Decimal(n / 10) + [Digit(n % 10)]
  }

  /** `%0wX`: the lowest `w` hexadecimal digits. */
  function Hex(n: nat, w: nat): string {
    if w == 0 then "" else Hex(n / 16, w - 1) + [Digit(n % 16)]
  }

  /** The number has no more than `w` hexadecimal digits. */
  predicate HexFits(n: nat, w: nat) {
    if w == 0 then n == 0 else HexFits(n / 16, w - 1)
  }

  lemma OneDigit(d: nat)
    requires d < 10
    ensures Value([Digit(d)], 10) == Some(d)
  {
    DigitAppends("", d, 10);
    assert "" + [Digit(d)] == [Digit(d)];
  }

  lemma {:induction false} DecimalReads(n: nat)
    ensures Value(Decimal(n), 10) == Some(n)
    ensures Decimal(n) != "" && forall c :: c in Decimal(n) ==> '0' <= c <= '9'
  {
    var q, d := n / 10, n % 10;
    DigitReads(d);
    if n < 10 {
      OneDigit(n);
    } else {
      DecimalReads(q);
      DigitAppends(Decimal(q), d, 10);
      assert Decimal(n) == Decimal(q) + [Digit(d)];
    }
  }

  lemma {:induction false} HexLetters(n: nat, w: nat)
    ensures |Hex(n, w)| == w && forall c :: c in Hex(n, w) ==> '0' <= c <= '9' || 'A' <= c <= 'F'
    decreases w
  {
    if w > 0 {
      HexLetters(n / 16, w - 1);
      DigitReads(n % 16);
    }
  }

  lemma HexDigitAppends(n: nat, w: nat)
    requires w > 0 && Value(Hex(n / 16, w - 1), 16) == Some(n / 16)
    ensures Value(Hex(n, w), 16) == Some(n)
  {
    DigitAppends(Hex(n / 16, w - 1), n % 16, 16);
  }

  lemma {:induction false} HexReads(n: nat, w: nat)
    requires HexFits(n, w)
    ensures Value(Hex(n, w), 16) == Some(n)
    decreases w
  {
    if w > 0 {
      HexReads(n / 16, w - 1);
      HexDigitAppends(n, w);
    }
  }

  lemma TwoMore(n: nat, w: nat)
    requires HexFits(n / 16 / 16, w)
    ensures HexFits(n, w + 2)
  {
    assert HexFits(n / 16, w + 1);
  }

  lemma WordFits(n: nat)
    ensures n < 0x100 ==> HexFits(n, 2)
    ensures n < 0x1_0000 ==> HexFits(n, 4)
    ensures n < 0x1_0000_0000 ==> HexFits(n, 8)
  {
    var a := n / 16 / 16;
    var b := a / 16 / 16;
    var c := b / 16 / 16;
    var d := c / 16 / 16;
    if n < 0x100 { assert a == 0; TwoMore(n, 0); }
    if n < 0x1_0000 { assert b == 0; TwoMore(a, 0); TwoMore(n, 2); }
    if n < 0x1_0000_0000 { assert d == 0; TwoMore(c, 0); TwoMore(b, 2); TwoMore(a, 4); TwoMore(n, 6); }
  }

  /** Text printed as decimal parses back, within the range of the type. */
  lemma DecimalParses(n: nat, max: nat)
    requires n <= max
    ensures FromStrRadix(Decimal(n), 10, max) == Some(n)
  {
    DecimalReads(n);
    assert Decimal(n)[0] in Decimal(n);
  }

  lemma HexParses(n: nat, w: nat, max: nat)
    requires 0 < w && HexFits(n, w) && n <= max
    ensures |Hex(n, w)| == w && FromStrRadix(Hex(n, w), 16, max) == Some(n)
  {
    HexLetters(n, w);
    HexReads(n, w);
    assert Hex(n, w)[0] in Hex(n, w);
  }

  // ---- Words ----

  predicate IsSpace(c: char) {
    c == ' ' || '\t' <= c <= '\r'
  }

  function DropSpaces(s: string): (r: string)
    ensures |r| <= |s| && (r != "" ==> !IsSpace(r[0]))
  {
    if s != "" && IsSpace(s[0]) then DropSpaces(s[1..]) else s
  }

  function WordLength(s: string): (n: nat)
    ensures n <= |s|
    ensures s != "" && !IsSpace(s[0]) ==> n > 0
  {
    if s != "" && !IsSpace(s[0]) then 1 + WordLength(s[1..]) else 0
  }

  /** `split_whitespace`. */
  function SplitWhitespace(s: string): seq<string>
    decreases |s|
  {
    var t := DropSpaces(s);
    if t == "" then [] else [t[..WordLength(t)]] + SplitWhitespace(t[WordLength(t)..])
  }

  function Spaces(n: nat): string {
    if n == 0 then "" else " " + Spaces(n - 1)
  }

  predicate IsWord(w: string) {
    w != "" && forall c :: c in w ==> !IsSpace(c)
  }

  /** Words with blanks before each; only the first may stand at the very start. */
  function Line(words: seq<string>, pads: seq<nat>): string
    requires |pads| == |words|
  {
    if |words| == 0 then "" else Spaces(pads[0]) + words[0] + Line(words[1..], pads[1..])
  }

  lemma {:induction false} DropPadding(n: nat, s: string)
    requires s == "" || !IsSpace(s[0])
    ensures DropSpaces(Spaces(n) + s) == s
  {
    if n == 0 {
      assert Spaces(0) + s == s;
    } else {
      DropPadding(n - 1, s);
      assert (Spaces(n) + s)[1..] == Spaces(n - 1) + s;
    }
  }

  lemma {:induction false} WordEnds(w: string, rest: string)
    requires forall c :: c in w ==> !IsSpace(c)
    requires rest == "" || IsSpace(rest[0])
    ensures WordLength(w + rest) == |w|
    decreases |w|
  {
    if w == "" {
      assert w + rest == rest;
    } else {
      assert (w + rest)[1..] == w[1..] + rest;
      WordEnds(w[1..], rest);
    }
  }

  ghost predicate Separated(pads: seq<nat>) {
    forall i :: 0 < i < |pads| ==> pads[i] > 0
  }

  /** Splitting at blanks recovers the words, however wide the blanks are. */
  lemma {:induction false} SplitLine(words: seq<string>, pads: seq<nat>)
    requires |pads| == |words| && Separated(pads) && forall i :: 0 <= i < |words| ==> IsWord(words[i])
    ensures SplitWhitespace(Line(words, pads)) == words
    decreases |words|
  {
    if |words| > 0 {
      var rest := Line(words[1..], pads[1..]);
      var tail := words[0] + rest;
      assert Line(words, pads) == Spaces(pads[0]) + tail;
      assert IsWord(words[0]);
      DropPadding(pads[0], tail);
      RestStartsBlank(words[1..], pads[1..]);
      WordEnds(words[0], rest);
      assert tail[..|words[0]|] == words[0] && tail[|words[0]|..] == rest;
      SplitLine(words[1..], pads[1..]);
    }
  }

  lemma RestStartsBlank(words: seq<string>, pads: seq<nat>)
    requires |pads| == |words| && forall i :: 0 <= i < |pads| ==> pads[i] > 0
    ensures Line(words, pads) == "" || IsSpace(Line(words, pads)[0])
  {
    if |words| > 0 {
      assert Spaces(pads[0])[0] == ' ';
    }
  }

  lemma {:induction false} DropSpacesAhead(s: string, rest: string)
    ensures DropSpaces(s) != "" ==> DropSpaces(s + rest) == DropSpaces(s) + rest
    ensures DropSpaces(s) == "" ==> DropSpaces(s + rest) == DropSpaces(rest)
    decreases |s|
  {
    if s == "" {
      assert s + rest == rest;
    } else {
      assert (s + rest)[1..] == s[1..] + rest;
      DropSpacesAhead(s[1..], rest);
    }
  }

  lemma {:induction false} WordLengthAhead(s: string, rest: string)
    requires rest != "" && IsSpace(rest[0])
    ensures WordLength(s + rest) == WordLength(s)
    decreases |s|
  {
    if s == "" {
      assert s + rest == rest;
    } else {
      assert (s + rest)[1..] == s[1..] + rest;
      WordLengthAhead(s[1..], rest);
    }
  }

  lemma {:induction false} DropSpacesTwice(s: string)
    ensures DropSpaces(DropSpaces(s)) == DropSpaces(s)
    decreases |s|
  {
    if s != "" && IsSpace(s[0]) { DropSpacesTwice(s[1..]); }
  }

  lemma BlanksDoNotMatter(s: string)
    ensures SplitWhitespace(DropSpaces(s)) == SplitWhitespace(s)
  {
    DropSpacesTwice(s);
  }

  lemma NextWord(s: string)
    requires DropSpaces(s) != ""
    ensures var t := DropSpaces(s);
            0 < WordLength(t) <= |t| && |t| <= |s|
            && SplitWhitespace(s) == [t[..WordLength(t)]] + SplitWhitespace(t[WordLength(t)..])
  {
  }

  lemma OnlyBlanks(a: string, b: string)
    requires DropSpaces(a) == ""
    ensures SplitWhitespace(a + ([' '] + b)) == SplitWhitespace(b)
  {
    var rest := [' '] + b;
    DropSpacesAhead(a, rest);
    BlanksDoNotMatter(a + rest);
    BlanksDoNotMatter(rest);
    assert rest[1..] == b && DropSpaces(rest) == DropSpaces(b);
    BlanksDoNotMatter(b);
  }

  lemma SliceAhead(t: string, rest: string, n: nat)
    requires n <= |t|
    ensures (t + rest)[..n] == t[..n] && (t + rest)[n..] == t[n..] + rest
  {
  }

  lemma WordOf(s: string, t: string, n: nat)
    requires t == DropSpaces(s) && t != "" && n == WordLength(t)
    ensures n <= |t| && SplitWhitespace(s) == [t[..n]] + SplitWhitespace(t[n..])
  {
    NextWord(s);
  }

  lemma FirstWord(a: string, rest: string)
    requires DropSpaces(a) != "" && rest != "" && IsSpace(rest[0])
    ensures var t := DropSpaces(a); var n := WordLength(t);
            SplitWhitespace(a + rest) == [t[..n]] + SplitWhitespace(t[n..] + rest)
  {
    var t := DropSpaces(a);
    DropSpacesAhead(a, rest);
    WordLengthAhead(t, rest);
    WordOf(a + rest, t + rest, WordLength(t));
    SliceAhead(t, rest, WordLength(t));
  }

  lemma {:induction false} SplitAhead(a: string, b: string)
    ensures SplitWhitespace(a + ([' '] + b)) == SplitWhitespace(a) + SplitWhitespace(b)
    decreases |a|
  {
    if DropSpaces(a) == "" {
      OnlyBlanks(a, b);
    } else {
      FirstWord(a, [' '] + b);
      NextWord(a);
      var t := DropSpaces(a);
      SplitAhead(t[WordLength(t)..], b);
    }
  }

  /** The words of two texts with a blank between them are the words of each. */
  lemma SplitJoin(a: string, b: string)
    ensures SplitWhitespace(a + [' '] + b) == SplitWhitespace(a) + SplitWhitespace(b)
  {
    SplitAhead(a, b);
    assert a + [' '] + b == a + ([' '] + b);
  }

  lemma SingleWord(w: string)
    requires IsWord(w)
    ensures SplitWhitespace(w) == [w]
  {
    SplitLine([w], [0]);
    assert Line([], []) == "" && Line([w], [0]) == w;
  }

  /** One word and a blank in front of other words. */
  lemma WordAhead(w: string, rest: string)
    requires IsWord(w)
    ensures SplitWhitespace(w + [' '] + rest) == [w] + SplitWhitespace(rest)
  {
    SingleWord(w);
    SplitJoin(w, rest);
  }

  /** Words with a blank after each. */
  function Phrase(words: seq<string>): string {
    if |words| == 0 then "" else words[0] + [' '] + Phrase(words[1..])
  }

  lemma PhraseStep(words: seq<string>, rest: string)
    requires |words| > 0
    ensures Phrase(words) + rest == words[0] + [' '] + (Phrase(words[1..]) + rest)
  {
  }

  lemma FirstAndRest(words: seq<string>, more: seq<string>)
    requires |words| > 0
    ensures [words[0]] + (words[1..] + more) == words + more
  {
    assert words == [words[0]] + words[1..];
  }

  lemma {:induction false} PhraseAhead(words: seq<string>, rest: string)
    requires forall i :: 0 <= i < |words| ==> IsWord(words[i])
    ensures SplitWhitespace(Phrase(words) + rest) == words + SplitWhitespace(rest)
    decreases |words|
  {
    if |words| == 0 {
      assert Phrase(words) + rest == rest;
    } else {
      PhraseStep(words, rest);
      PhraseAhead(words[1..], rest);
      WordAhead(words[0], Phrase(words[1..]) + rest);
      FirstAndRest(words, SplitWhitespace(rest));
    }
  }

  /** What stands before the first `c`, or everything. */
  function Before(s: string, c: char): string {
    if s == "" || s[0] == c then "" else [s[0]] + Before(s[1..], c)
  }

  lemma {:induction false} BeforeFirst(a: string, c: char, b: string)
    requires c !in a
    ensures Before(a + [c] + b, c) == a
    ensures Before(a, c) == a
    decreases |a|
  {
    if a == "" {
      assert (a + [c] + b)[0] == c;
    } else {
      assert (a + [c] + b)[1..] == a[1..] + [c] + b;
      BeforeFirst(a[1..], c, b);
    }
  }

  lemma {:induction false} BeforeLacks(s: string, c: char)
    ensures c !in Before(s, c) && Before(s, c) <= s
    ensures c !in s ==> Before(s, c) == s
    ensures c in s ==> |Before(s, c)| < |s| && s[|Before(s, c)|] == c
    decreases |s|
  {
    if s != "" && s[0] != c {
      BeforeLacks(s[1..], c);
      assert s == [s[0]] + s[1..];
    }
  }

  lemma BeforeSplits(s: string, c: char)
    ensures c !in Before(s, c) && Before(s, c) <= s
    ensures c !in s ==> Before(s, c) == s
    ensures c in s ==> |Before(s, c)| < |s| && s == Before(s, c) + [c] + s[|Before(s, c)| + 1..]
  {
    BeforeLacks(s, c);
  }
}

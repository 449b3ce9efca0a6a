/**
 * String operations that handler/Handler.go takes from Go's `strings` and
 * `fmt` packages: replacing the first occurrence of a character, substring
 * search, and zero-padded decimal formatting of dates.
 */
module Text {

  /** The position of the first `c` in `s`. */
  function FirstIndex(s: string, c: char): (i: nat)
    requires c in s
    ensures i < |s| && s[i] == c && c !in s[..i]
  {
    if s[0] == c then 0
    else
      var j := FirstIndex(s[1..], c);
      assert s[..j + 1] == [s[0]] + s[1..][..j];
      j + 1
  }

  /** `strings.Replace(s, [c], repl, 1)`: the first `c` in `s`, if any, becomes `repl`. */
  function ReplaceFirst(s: string, c: char, repl: string): (r: string)
    ensures c !in s ==> r == s
    ensures c in s ==> var i := FirstIndex(s, c); r == s[..i] + repl + s[i + 1..]
  {
    if s == [] then []
    else if s[0] == c then repl + s[1..]
    else
      var tail := ReplaceFirst(s[1..], c, repl);
      if c in s[1..] then
        var j := FirstIndex(s[1..], c);
        assert FirstIndex(s, c) == j + 1;
        assert s[..j + 1] == [s[0]] + s[1..][..j];
        assert s[j + 2..] == s[1..][j + 1..];
        [s[0]] + tail
      else
        assert s == [s[0]] + s[1..];
        [s[0]] + tail
  }

  /**
   * `r` is `s` with its first `c` replaced by `repl`: some position holds `c`,
   * no earlier one does, and only that character is replaced; with no `c`, `r` is `s`.
   */
  ghost predicate ReplacedFirst(s: string, c: char, repl: string, r: string) {
    && (c !in s ==> r == s)
    && (c in s ==> exists i :: 0 <= i < |s| && s[i] == c && c !in s[..i] && r == s[..i] + repl + s[i + 1..])
  }

  lemma ReplaceFirstReplacesFirst(s: string, c: char, repl: string)
    ensures ReplacedFirst(s, c, repl, ReplaceFirst(s, c, repl))
  {
    if c in s {
      var i := FirstIndex(s, c);
      assert s[i] == c && c !in s[..i];
    }
  }

  /** `sub` occurs in `s` at position `i`. */
  ghost predicate OccursAt(s: string, sub: string, i: int) {
    0 <= i && i + |sub| <= |s| && s[i..i + |sub|] == sub
  }

  /** `strings.Contains(s, sub)`. */
  function Contains(s: string, sub: string): (b: bool)
    ensures b <==> exists i :: OccursAt(s, sub, i)
    decreases |s|
  {
    if |s| < |sub| then false
    else if s[..|sub|] == sub then
      assert OccursAt(s, sub, 0);
      true
    else
      var b := Contains(s[1..], sub);
      assert b ==> exists i :: OccursAt(s, sub, i) by {
        if b {
          var j :| OccursAt(s[1..], sub, j);
          assert s[1..][j..j + |sub|] == s[j + 1..j + 1 + |sub|];
          assert OccursAt(s, sub, j + 1);
        }
      }
      assert (exists i :: OccursAt(s, sub, i)) ==> b by {
        if i :| OccursAt(s, sub, i) {
          assert i != 0;
          assert s[1..][i - 1..i - 1 + |sub|] == s[i..i + |sub|];
          assert OccursAt(s[1..], sub, i - 1);
        }
      }
      b
  }

  predicate IsDigit(ch: char) { '0' as int <= ch as int <= '9' as int }

  function DigitChar(d: nat): char
    requires d < 10
  {
    ['0', '1', '2', '3', '4', '5', '6', '7', '8', '9'][d]
  }

  /** The number a string of decimal digits denotes. */
  function Value(s: string): nat
    requires forall i :: 0 <= i < |s| ==> IsDigit(s[i])
  {
    if s == [] then 0
    else
      assert IsDigit(s[|s| - 1]);
      Value(s[..|s| - 1]) * 10 + (s[|s| - 1] as int - '0' as int)
  }

  function Pow10(n: nat): nat {
    if n == 0 then 1 else 10 * Pow10(n - 1)
  }

  /**
   * The decimal digits of `n`, left-padded with zeros to at least `width`
   * characters: how Go's time layout prints "2006" (width 4) and "01" (width 2).
   */
  function Pad(n: nat, width: nat): (r: string)
    ensures |r| >= 1 && |r| >= width
    ensures forall i :: 0 <= i < |r| ==> IsDigit(r[i])
    decreases n + width
  {
    if n < 10 && width <= 1 then [DigitChar(n)]
    else Pad(n / 10, if width > 0 then width - 1 else 0) + [DigitChar(n % 10)]
  }

  /** The padded digits read back as the number. */
  lemma {:induction false} PadValue(n: nat, width: nat)
    ensures Value(Pad(n, width)) == n
    decreases n + width
  {
    var r := Pad(n, width);
    if n < 10 && width <= 1 {
      assert Value(r) == Value(r[..0]) * 10 + n;
    } else {
      var front := Pad(n / 10, if width > 0 then width - 1 else 0);
      PadValue(n / 10, if width > 0 then width - 1 else 0);
      assert r[..|r| - 1] == front;
      assert Value(r) == Value(front) * 10 + n % 10;
    }
  }

  /** A number below `10^width` is padded to exactly `width` digits. */
  lemma {:induction false} PadExactWidth(n: nat, width: nat)
    requires 1 <= width && n < Pow10(width)
    ensures |Pad(n, width)| == width
    decreases width
  {
    if n < 10 && width <= 1 {
    } else {
      assert 2 <= width;
      assert n / 10 < Pow10(width - 1);
      PadExactWidth(n / 10, width - 1);
    }
  }
}

/** Lua string literals (internal/docs/export_images.go, luaString). */
module LuaText {
  import opened Wrappers
  import opened Text

  /** Go strings are bytes. */
  predicate IsBytes(s: string) { forall i :: 0 <= i < |s| ==> s[i] as int < 256 }

  /** Written as it is. */
  predicate IsPlain(c: char) {
    'a' <= c <= 'z' || 'A' <= c <= 'Z' || IsDigit(c) || c == '/' || c == '.' || c == '_' || c == '-'
  }

  /** One byte of a literal: itself, or a backslash and three decimal digits. */
  function Coded(c: char): (s: string)
    requires c as int < 256
  {
    var n := c as int;
    if IsPlain(c) then [c] else ['\\', Digit(n / 100), Digit(n / 10 % 10), Digit(n % 10)]
  }

  function CodedAll(s: string): string
    requires IsBytes(s)
  {
    if s == [] then [] else CodedAll(s[..|s| - 1]) + Coded(s[|s| - 1])
  }

  /** How many decimal digits s begins with, at most limit. */
  function Digits(s: string, limit: nat): (n: nat)
    ensures n <= |s| && n <= limit && forall i :: 0 <= i < n ==> IsDigit(s[i])
  {
    if limit == 0 || s == [] || !IsDigit(s[0]) then 0 else 1 + Digits(s[1..], limit - 1)
  }

  /** What Lua reads between the quotes: an escape takes up to three decimal digits. None for an error,
      or an escape that is not decimal. */
  function Body(s: string): Option<string> {
    if s == [] then Some([])
    else if s[0] == '"' || s[0] == '\n' then None
    else if s[0] != '\\' then
      var rest := Body(s[1..]);
      if rest.Some? then Some([s[0]] + rest.value) else None
    else
      var n := Digits(s[1..], 3);
      var value := Number(s[1..1 + n]);
      var rest := Body(s[1 + n..]);
      if n > 0 && value < 256 && rest.Some? then Some([value as char] + rest.value) else None
  }

  function Literal(s: string): Option<string> {
    if |s| >= 2 && s[0] == '"' && s[|s| - 1] == '"' then Body(s[1..|s| - 1]) else None
  }

  /** luaString. Lua reads the literal as the bytes it was made of, whatever they are. */
  method LuaString(s: string) returns (b: string)
    requires IsBytes(s)
    ensures Literal(b) == Some(s)
  {
    b := "\"";
    for i := 0 to |s|
      invariant b == ['"'] + CodedAll(s[..i])
    {
      var c := s[i];
      assert s[..i + 1][..i] == s[..i];
      if IsPlain(c) {
        b := b + [c];
      } else {
        var n := c as int;
        b := b + ['\\', Digit(n / 100), Digit(n / 10 % 10), Digit(n % 10)];
      }
    }
    assert s[..|s|] == s;
    b := b + ['"'];
    assert b[1..|b| - 1] == CodedAll(s);
    CodedReadsBack(s, []);
    assert CodedAll(s) + [] == CodedAll(s) && s + [] == s;
  }

  /** A coded byte is read back, whatever follows: three digits are always all there, so a digit that
      comes next is not taken for a part of the escape. */
  lemma CodedByte(c: char, rest: string)
    requires c as int < 256
    ensures Body(Coded(c) + rest) == if Body(rest).Some? then Some([c] + Body(rest).value) else None
  {
    var n := c as int;
    var s := Coded(c) + rest;
    if IsPlain(c) {
      assert s[1..] == rest;
    } else {
      var a, b, d := Digit(n / 100), Digit(n / 10 % 10), Digit(n % 10);
      var t := s[1..];
      assert t[0] == a && t[1..][0] == b && t[1..][1..][0] == d;
      assert Digits(t[1..][1..], 1) == 1;
      assert Digits(t[1..], 2) == 2;
      assert Digits(t, 3) == 3;
      assert s[1..4] == [a, b, d] && s[4..] == rest;
      ThreeDigits(n);
    }
  }

  lemma ThreeDigits(n: nat)
    requires n < 256
    ensures Number([Digit(n / 100), Digit(n / 10 % 10), Digit(n % 10)]) == n
  {
    var a, b, d := Digit(n / 100), Digit(n / 10 % 10), Digit(n % 10);
    assert [a, b, d][..2] == [a, b] && [a, b][..1] == [a] && [a][..0] == [];
    assert Number([a]) == n / 100;
    assert Number([a, b]) == n / 100 * 10 + n / 10 % 10;
  }

  lemma {:induction false} CodedReadsBack(s: string, rest: string)
    requires IsBytes(s)
    ensures Body(CodedAll(s) + rest) == if Body(rest).Some? then Some(s + Body(rest).value) else None
    decreases |s|
  {
    hide Body, Coded;
    if s == [] {
      assert CodedAll(s) + rest == rest;
      assert Body(rest).Some? ==> s + Body(rest).value == Body(rest).value;
    } else {
      var front, last := s[..|s| - 1], s[|s| - 1];
      var more := Coded(last) + rest;
      assert CodedAll(s) + rest == CodedAll(front) + more;
      hide CodedAll;
      CodedByte(last, rest);
      CodedReadsBack(front, more);
      if Body(rest).Some? {
        var v := Body(rest).value;
        assert front + ([last] + v) == s + v;
      }
    }
  }
}

/**
 The vCard printer and parser (internal/contacts/vcard.go): escaping, content lines, cards.
 */
module VCard {
  import opened Wrappers
  import opened Text

  // ---- Escaping ----------------------------------------------------------------------------------

  function EscapeVCard(s: string): string {
    ReplaceAll(ReplaceAll(ReplaceAll(s, "\\", "\\\\"), ",", "\\,"), ";", "\\;")
  }

  function EscapeVCardNote(s: string): string {
    ReplaceAll(EscapeVCard(s), "\n", "\\n")
  }

  function UnescapedChar(c: char): char { if c == 'n' || c == 'N' then '\n' else c }

  function Unescaped(s: string): string {
    if |s| == 0 then []
    else if s[0] == '\\' && |s| > 1 then [UnescapedChar(s[1])] + Unescaped(s[2..])
    else [s[0]] + Unescaped(s[1..])
  }

  lemma {:induction false} UnescapedPlain(s: string)
    requires '\\' !in s
    ensures Unescaped(s) == s
  {
    if |s| > 0 {
      UnescapedPlain(s[1..]);
    }
  }

  method UnescapeVCard(s: string) returns (b: string)
    ensures b == Unescaped(s)
  {
    if '\\' !in s {
      UnescapedPlain(s);
      return s;
    }
    b := "";
    var i := 0;
    while i < |s|
      invariant 0 <= i <= |s| && b + Unescaped(s[i..]) == Unescaped(s)
    {
      ghost var before, rest := b, s[i..];
      if s[i] == '\\' && i + 1 < |s| {
        assert s[i..][2..] == s[i + 2..];
        assert before + Unescaped(rest) == (before + [UnescapedChar(s[i + 1])]) + Unescaped(s[i + 2..]);
        b := b + [UnescapedChar(s[i + 1])];
        i := i + 2;
      } else {
        assert s[i..][1..] == s[i + 1..];
        assert before + Unescaped(rest) == (before + [s[i]]) + Unescaped(s[i + 1..]);
        b := b + [s[i]];
        i := i + 1;
      }
    }
  }

  /** What one character becomes, in a note when note holds. */
  function Code(c: char, note: bool): string {
    if c == '\\' then "\\\\"
    else if c == ',' then "\\,"
    else if c == ';' then "\\;"
    else if c == '\n' && note then "\\n"
    else [c]
  }

  function Coded(s: string, note: bool): string {
    if |s| == 0 then [] else Code(s[0], note) + Coded(s[1..], note)
  }

  function Escape(s: string, note: bool): string { if note then EscapeVCardNote(s) else EscapeVCard(s) }

  lemma CodeOfChar(c: char, note: bool)
    ensures Escape([c], note) == Code(c, note)
  {
    assert [c][1..] == [];
    ReplaceOne(c, '\\', "\\\\");
    ReplaceOne(c, ',', "\\,");
    ReplaceOne(c, ';', "\\;");
    ReplaceOne(c, '\n', "\\n");
    if c == '\\' || c == ',' || c == ';' {
      ReplaceTwo('\\', c, ',', "\\,");
      ReplaceTwo('\\', c, ';', "\\;");
      ReplaceTwo('\\', c, '\n', "\\n");
    }
  }

  lemma ReplaceOne(c: char, pat: char, sub: string)
    ensures ReplaceAll([c], [pat], sub) == if c == pat then sub else [c]
  {
    assert [c][1..] == [];
    assert ReplaceAll([], [pat], sub) == [];
    if c == pat {
      assert [pat] <= [c];
      assert sub + [] == sub;
    } else {
      assert [pat][0] != [c][0];
      assert !([pat] <= [c]);
    }
  }

  lemma ReplaceTwo(c: char, d: char, pat: char, sub: string)
    requires c != pat
    ensures d != pat ==> ReplaceAll([c, d], [pat], sub) == [c, d]
    ensures d == pat ==> ReplaceAll([c, d], [pat], sub) == [c] + sub
  {
    assert [c, d] == [c] + [d];
    ReplaceCharAppend([c], [d], pat, sub);
    ReplaceOne(c, pat, sub);
    ReplaceOne(d, pat, sub);
  }

  lemma EscapeAppend(a: string, b: string, note: bool)
    ensures Escape(a + b, note) == Escape(a, note) + Escape(b, note)
  {
    ReplaceCharAppend(a, b, '\\', "\\\\");
    var a1, b1 := ReplaceAll(a, "\\", "\\\\"), ReplaceAll(b, "\\", "\\\\");
    ReplaceCharAppend(a1, b1, ',', "\\,");
    var a2, b2 := ReplaceAll(a1, ",", "\\,"), ReplaceAll(b1, ",", "\\,");
    ReplaceCharAppend(a2, b2, ';', "\\;");
    ReplaceCharAppend(EscapeVCard(a), EscapeVCard(b), '\n', "\\n");
  }

  /** The chains of global replacements work character by character. */
  lemma {:induction false} EscapeIsCoded(s: string, note: bool)
    ensures Escape(s, note) == Coded(s, note)
  {
    hide Escape, Code;
    if |s| == 0 {
      EscapeEmpty(note);
    } else {
      assert s == [s[0]] + s[1..];
      EscapeAppend([s[0]], s[1..], note);
      CodeOfChar(s[0], note);
      EscapeIsCoded(s[1..], note);
    }
  }

  lemma EscapeEmpty(note: bool)
    ensures Escape("", note) == ""
  {
  }

  lemma {:induction false} UnescapeCoded(s: string, note: bool, rest: string)
    ensures Unescaped(Coded(s, note) + rest) == s + Unescaped(rest)
  {
    hide Code, Unescaped;
    if |s| == 0 {
      assert Coded(s, note) + rest == rest;
    } else {
      UnescapeCoded(s[1..], note, rest);
      var tail := Coded(s[1..], note) + rest;
      assert Coded(s, note) + rest == Code(s[0], note) + tail;
      UnescapeOne(s[0], note, tail);
      assert [s[0]] + (s[1..] + Unescaped(rest)) == s + Unescaped(rest);
    }
  }

  lemma UnescapeOne(c: char, note: bool, tail: string)
    ensures Unescaped(Code(c, note) + tail) == [c] + Unescaped(tail)
  {
    var code := Code(c, note);
    if |code| == 2 {
      assert (code + tail)[2..] == tail && code[0] == '\\' && UnescapedChar(code[1]) == c;
    } else {
      assert (code + tail)[1..] == tail && code[0] == c;
    }
  }

  /** Unescaping undoes both escapers, for every string. */
  lemma UnescapeUndoesEscape(s: string)
    ensures Unescaped(EscapeVCard(s)) == s && Unescaped(EscapeVCardNote(s)) == s
  {
    EscapeIsCoded(s, false);
    EscapeIsCoded(s, true);
    UnescapeCoded(s, false, []);
    UnescapeCoded(s, true, []);
    assert Coded(s, false) + [] == Coded(s, false) && Coded(s, true) + [] == Coded(s, true);
    assert s + [] == s;
  }

  // ---- Content lines -----------------------------------------------------------------------------

  /** What follows the last dot: a grouping prefix such as item1. is dropped. */
  function AfterLastDot(s: string): string
    decreases |s|
  {
    if '.' !in s then s else AfterLastDot(After(s, '.'))
  }

  datatype ContentLine = ContentLine(name: string, value: string)

  function SplitContentLine(line: string): ContentLine {
    if ':' !in line then ContentLine("", "")
    else ContentLine(AfterLastDot(ToUpper(TrimSpace(Before(Before(line, ':'), ';')))), After(line, ':'))
  }

  // ---- Cards -------------------------------------------------------------------------------------

  datatype Card = Card(
    displayName: string, firstName: string, lastName: string, company: string, jobTitle: string,
    emails: seq<string>, phones: seq<string>, labels: seq<string>, notes: string)

  const EMPTY_CARD: Card := Card("", "", "", "", "", [], [], [], "")

  predicate SameFolded(a: string, b: string) { ToLower(a) == ToLower(b) }

  predicate Present(list: seq<string>, v: string) { exists i :: 0 <= i < |list| && SameFolded(list[i], v) }

  function Appended(list: seq<string>, v: string): seq<string> {
    if Present(list, v) then list else list + [v]
  }

  method UniqAppend(list: seq<string>, v: string) returns (r: seq<string>)
    ensures r == Appended(list, v)
  {
    var lower := ToLower(v);
    for i := 0 to |list|
      invariant forall k :: 0 <= k < i ==> !SameFolded(list[k], v)
    {
      if ToLower(list[i]) == lower {
        assert SameFolded(list[i], v);
        return list;
      }
    }
    r := list + [v];
  }

  /** Trim v and append it unless it is blank or already there. */
  function Collect(list: seq<string>, v: string): seq<string> {
    if TrimSpace(v) == "" then list else Appended(list, TrimSpace(v))
  }

  function CollectAll(list: seq<string>, values: seq<string>): seq<string> {
    if |values| == 0 then list else Collect(CollectAll(list, values[..|values| - 1]), values[|values| - 1])
  }

  /** The parsed card with its display name filled in at END:VCARD. */
  function Closed(c: Card): Card {
    if c.displayName != "" then c
    else
      var full := TrimSpace(c.firstName + " " + c.lastName);
      c.(displayName := if full == "" && |c.emails| > 0 then c.emails[0] else full)
  }

  /** One property of a card. */
  function WithProperty(c: Card, name: string, value: string): Card {
    if name == "FN" then c.(displayName := TrimSpace(value))
    else if name == "N" then
      var named := c.(lastName := TrimSpace(Before(value, ';')));
      if ';' in value then named.(firstName := TrimSpace(Before(After(value, ';'), ';'))) else named
    else if name == "EMAIL" then c.(emails := Collect(c.emails, value))
    else if name == "TEL" then c.(phones := Collect(c.phones, value))
    else if name == "ORG" then c.(company := TrimSpace(Before(value, ';')))
    else if name == "TITLE" then c.(jobTitle := TrimSpace(value))
    else if name == "NOTE" then c.(notes := if c.notes != "" then c.notes + "\n" + value else value)
    else if name == "CATEGORIES" then c.(labels := CollectAll(c.labels, Split(value, ',')))
    else c
  }

  /** The parser between two lines. */
  datatype State = State(out: seq<Card>, cur: Option<Card>)

  function AfterLine(st: State, raw: string): State {
    var line := TrimRight(raw);
    if line == "" then st
    else if ToUpper(line) == "BEGIN:VCARD" then st.(cur := Some(EMPTY_CARD))
    else if ToUpper(line) == "END:VCARD" then
      State(if st.cur.Some? then st.out + [Closed(st.cur.value)] else st.out, None)
    else if st.cur.None? then st
    else
      var c := SplitContentLine(line);
      if c.name == "" then st else st.(cur := Some(WithProperty(st.cur.value, c.name, Unescaped(c.value))))
  }

  function AfterLines(st: State, lines: seq<string>): State {
    if |lines| == 0 then st else AfterLine(AfterLines(st, lines[..|lines| - 1]), lines[|lines| - 1])
  }

  /** Line ends normalised, continuation lines unfolded. */
  function Unfolded(text: string): string {
    ReplaceAll(ReplaceAll(ReplaceAll(ReplaceAll(text, "\r\n", "\n"), "\r", "\n"), "\n ", ""), "\n\t", "")
  }

  function ParsedCards(text: string): seq<Card> {
    AfterLines(State([], None), Split(Unfolded(text), '\n')).out
  }

  method CollectParts(list: seq<string>, values: seq<string>) returns (r: seq<string>)
    ensures r == CollectAll(list, values)
  {
    r := list;
    for i := 0 to |values|
      invariant r == CollectAll(list, values[..i])
    {
      assert values[..i + 1][..i] == values[..i];
      var v := TrimSpace(values[i]);
      if v != "" {
        r := UniqAppend(r, v);
      }
    }
    assert values[..|values|] == values;
  }

  /** The switch over property names. */
  method SetProperty(c: Card, name: string, value: string) returns (r: Card)
    ensures r == WithProperty(c, name, value)
  {
    r := c;
    match name {
      case "FN" => r := r.(displayName := TrimSpace(value));
      case "N" =>
        r := r.(lastName := TrimSpace(Before(value, ';')));
        if ';' in value {
          r := r.(firstName := TrimSpace(Before(After(value, ';'), ';')));
        }
      case "EMAIL" =>
        if TrimSpace(value) != "" {
          var emails := UniqAppend(r.emails, TrimSpace(value));
          r := r.(emails := emails);
        }
      case "TEL" =>
        if TrimSpace(value) != "" {
          var phones := UniqAppend(r.phones, TrimSpace(value));
          r := r.(phones := phones);
        }
      case "ORG" => r := r.(company := TrimSpace(Before(value, ';')));
      case "TITLE" => r := r.(jobTitle := TrimSpace(value));
      case "NOTE" => r := r.(notes := if r.notes != "" then r.notes + "\n" + value else value);
      case "CATEGORIES" =>
        var labels := CollectParts(r.labels, Split(value, ','));
        r := r.(labels := labels);
      case _ =>
    }
  }

  method ParseVCards(text: string) returns (out: seq<Card>)
    ensures out == ParsedCards(text)
  {
    hide Unfolded, WithProperty;
    var lines := Split(Unfolded(text), '\n');
    out := [];
    var cur: Option<Card> := None;
    for i := 0 to |lines|
      invariant State(out, cur) == AfterLines(State([], None), lines[..i])
    {
      assert lines[..i + 1][..i] == lines[..i];
      var line := TrimRight(lines[i]);
      if line == "" {
        continue;
      }
      var upper := ToUpper(line);
      if upper == "BEGIN:VCARD" {
        cur := Some(EMPTY_CARD);
        continue;
      }
      if upper == "END:VCARD" {
        if cur.Some? {
          var card := cur.value;
          if card.displayName == "" {
            card := card.(displayName := TrimSpace(card.firstName + " " + card.lastName));
            if card.displayName == "" && |card.emails| > 0 {
              card := card.(displayName := card.emails[0]);
            }
          }
          out := out + [card];
        }
        cur := None;
        continue;
      }
      if cur.None? {
        continue;
      }
      var c := SplitContentLine(line);
      if c.name == "" {
        continue;
      }
      var value := UnescapeVCard(c.value);
      var card := SetProperty(cur.value, c.name, value);
      cur := Some(card);
    }
    assert lines[..|lines|] == lines;
  }
}

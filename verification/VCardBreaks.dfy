/**
 Contacts with stray line breaks never come back: no card parsed from printed text holds a carriage
 return, and if no note holds one, none holds a line feed outside its notes. With that, the exact
 round-trip theorem for every list of contacts.
 */
module VCardBreaks {
  import opened Wrappers
  import opened Text
  import opened VCard
  import opened VCardText
  import opened VCardRoundTrip
  import opened VCardDomain

  // ---- Cards without a character -----------------------------------------------------------------

  predicate AllWithout(list: seq<string>, c: char) { forall v :: v in list ==> c !in v }

  predicate FieldsWithout(card: Card, c: char) {
    && c !in card.displayName && c !in card.firstName && c !in card.lastName && c !in card.company
    && c !in card.jobTitle && AllWithout(card.emails, c) && AllWithout(card.phones, c) && AllWithout(card.labels, c)
  }

  predicate CardsWithout(st: State, c: char) {
    (forall card :: card in st.out ==> FieldsWithout(card, c)) && (st.cur.Some? ==> FieldsWithout(st.cur.value, c))
  }

  predicate NotesWithout(st: State, c: char) {
    (forall card :: card in st.out ==> c !in card.notes) && (st.cur.Some? ==> c !in st.cur.value.notes)
  }

  lemma {:induction false} CollectAllKeepsOut(list: seq<string>, values: seq<string>, c: char)
    requires AllWithout(list, c) && forall i :: 0 <= i < |values| ==> c !in values[i]
    ensures AllWithout(CollectAll(list, values), c)
  {
    hide TrimSpace, Present;
    if |values| > 0 {
      CollectAllKeepsOut(list, values[..|values| - 1], c);
      TrimSpaceKeepsOut(values[|values| - 1], c);
    }
  }

  lemma PropertyKeepsOut(card: Card, name: string, value: string, c: char)
    requires FieldsWithout(card, c) && (name != "NOTE" ==> c !in value)
    ensures FieldsWithout(WithProperty(card, name, value), c)
  {
    hide TrimSpace, Before, After, Split, CollectAll, Present;
    if name != "NOTE" {
      TrimSpaceKeepsOut(value, c);
      CutKeepsOut(value, ';', c);
      CutKeepsOut(After(value, ';'), ';', c);
      TrimSpaceKeepsOut(Before(value, ';'), c);
      TrimSpaceKeepsOut(Before(After(value, ';'), ';'), c);
      SplitKeepsOut(value, ',', c);
      CollectAllKeepsOut(card.labels, Split(value, ','), c);
    }
  }

  lemma ClosedKeepsOut(card: Card, c: char)
    requires FieldsWithout(card, c) && c != ' '
    ensures FieldsWithout(Closed(card), c)
  {
    hide TrimSpace;
    TrimSpaceKeepsOut(card.firstName + " " + card.lastName, c);
  }

  lemma {:induction false} UnescapedKeepsOut(s: string, c: char)
    requires c !in s && c != '\n'
    ensures c !in Unescaped(s)
  {
    if |s| > 0 {
      if s[0] == '\\' && |s| > 1 {
        UnescapedKeepsOut(s[2..], c);
        assert s[1] in s;
      } else {
        UnescapedKeepsOut(s[1..], c);
      }
    }
  }

  /** A line keeps a character out if its unescaped value does, a note's apart. */
  lemma LineKeepsOut(st: State, raw: string, c: char)
    requires CardsWithout(st, c) && c != ' '
    requires var cl := SplitContentLine(TrimRight(raw)); cl.name == "NOTE" || c !in Unescaped(cl.value)
    ensures CardsWithout(AfterLine(st, raw), c)
  {
    hide SplitContentLine, Unescaped, WithProperty, FieldsWithout, TrimRight, ToUpper, Closed;
    var cl := SplitContentLine(TrimRight(raw));
    if st.cur.Some? {
      ClosedKeepsOut(st.cur.value, c);
      NewPropertyKeepsOut(st.cur.value, cl, c);
    }
    EmptyCardKeepsOut(c);
  }

  lemma EmptyCardKeepsOut(c: char)
    ensures FieldsWithout(EMPTY_CARD, c)
  {
  }

  lemma NewPropertyKeepsOut(card: Card, cl: ContentLine, c: char)
    requires FieldsWithout(card, c) && (cl.name == "NOTE" || c !in Unescaped(cl.value))
    ensures FieldsWithout(WithProperty(card, cl.name, Unescaped(cl.value)), c)
  {
    hide WithProperty, FieldsWithout, Unescaped;
    PropertyKeepsOut(card, cl.name, Unescaped(cl.value), c);
  }

  // ---- Carriage returns --------------------------------------------------------------------------

  lemma {:induction false} ReplaceKeepsOut(s: string, pat: string, sub: string, c: char)
    requires |pat| >= 1 && c !in s && c !in sub
    ensures c !in ReplaceAll(s, pat, sub)
    decreases |s|
  {
    if |s| < |pat| {
    } else if pat <= s {
      ReplaceKeepsOut(s[|pat|..], pat, sub, c);
    } else {
      ReplaceKeepsOut(s[1..], pat, sub, c);
    }
  }

  lemma {:induction false} ReplaceRemoves(s: string, c: char, sub: string)
    requires c !in sub
    ensures c !in ReplaceAll(s, [c], sub)
  {
    if |s| > 0 {
      ReplaceRemoves(s[1..], c, sub);
      assert [c] <= s <==> s[0] == c;
    }
  }

  lemma UnfoldedHasNoReturns(text: string)
    ensures '\r' !in Unfolded(text)
  {
    hide ReplaceAll;
    var a := ReplaceAll(text, "\r\n", "\n");
    ReplaceRemoves(a, '\r', "\n");
    var b := ReplaceAll(a, "\r", "\n");
    ReplaceKeepsOut(b, "\n ", "", '\r');
    ReplaceKeepsOut(ReplaceAll(b, "\n ", ""), "\n\t", "", '\r');
  }

  /** Notes too, unless the character is a line feed. */
  lemma LineKeepsNotes(st: State, raw: string, c: char)
    requires NotesWithout(st, c) && c != '\n' && c !in Unescaped(SplitContentLine(TrimRight(raw)).value)
    ensures NotesWithout(AfterLine(st, raw), c)
  {
    hide SplitContentLine, Unescaped, TrimRight, ToUpper, TrimSpace, Before, After, CollectAll, Split, Collect;
  }

  lemma ValueKeepsOut(raw: string, c: char)
    requires c !in raw && c != '\n'
    ensures c !in Unescaped(SplitContentLine(TrimRight(raw)).value)
  {
    hide Unescaped, TrimRight, AfterLastDot, ToUpper, TrimSpace, Before, After;
    TrimRightKeepsOut(raw, c);
    CutKeepsOut(TrimRight(raw), ':', c);
    UnescapedKeepsOut(After(TrimRight(raw), ':'), c);
    UnescapedKeepsOut("", c);
  }

  lemma {:induction false} LinesKeepReturnsOut(lines: seq<string>)
    requires forall i :: 0 <= i < |lines| ==> '\r' !in lines[i]
    ensures var st := AfterLines(State([], None), lines); CardsWithout(st, '\r') && NotesWithout(st, '\r')
  {
    hide CardsWithout, NotesWithout, AfterLine, SplitContentLine, Unescaped, TrimRight;
    if |lines| == 0 {
      StartKeepsOut('\r');
    } else {
      var st, line := AfterLines(State([], None), lines[..|lines| - 1]), lines[|lines| - 1];
      LinesKeepReturnsOut(lines[..|lines| - 1]);
      ValueKeepsOut(line, '\r');
      LineKeepsOut(st, line, '\r');
      LineKeepsNotes(st, line, '\r');
    }
  }

  lemma StartKeepsOut(c: char)
    ensures CardsWithout(State([], None), c) && NotesWithout(State([], None), c)
  {
  }

  lemma ParsedHasNoReturns(text: string, card: Card)
    requires card in ParsedCards(text)
    ensures FieldsWithout(card, '\r') && '\r' !in card.notes
  {
    hide AfterLines, Unfolded, Split, FieldsWithout;
    UnfoldedHasNoReturns(text);
    SplitKeepsOut(Unfolded(text), '\n', '\r');
    LinesKeepReturnsOut(Split(Unfolded(text), '\n'));
  }

  // ---- Line feeds --------------------------------------------------------------------------------

  /** Where in a line a scan of the text stands. */
  datatype Place = Start | Plain | Note

  predicate IsBreak(c: char) { c == '\n' || c == '\r' }

  /** Outside NOTE lines every backslash starts one of the pairs that do not print a line feed. */
  predicate Good(s: string, at: Place)
    decreases |s|, if at == Start then 1 else 0
  {
    match at
    case Start => if "NOTE:" <= s then Good(s[5..], Note) else Good(s, Plain)
    case Plain =>
      if |s| == 0 then true
      else if IsBreak(s[0]) then Good(s[1..], Start)
      else if s[0] == '\\' then |s| > 1 && (s[1] == '\\' || s[1] == ',' || s[1] == ';') && Good(s[2..], Plain)
      else Good(s[1..], Plain)
    case Note =>
      if |s| == 0 then true
      else if IsBreak(s[0]) then Good(s[1..], Start)
      else Good(s[1..], Note)
  }

  lemma {:induction false} PlainIsNote(s: string)
    requires Good(s, Plain)
    ensures Good(s, Note)
    decreases |s|
  {
    if |s| == 0 || IsBreak(s[0]) {
    } else if s[0] == '\\' {
      PlainIsNote(s[2..]);
      assert s[1..][1..] == s[2..];
    } else {
      PlainIsNote(s[1..]);
    }
  }

  lemma PlainIsStart(s: string)
    requires Good(s, Plain)
    ensures Good(s, Start)
  {
    if "NOTE:" <= s {
      var a, b, c, d, e := s[1..], s[2..], s[3..], s[4..], s[5..];
      assert a[1..] == b && b[1..] == c && c[1..] == d && d[1..] == e;
      assert s[0] == 'N' && a[0] == 'O' && b[0] == 'T' && c[0] == 'E' && d[0] == ':';
      assert Good(a, Plain) && Good(b, Plain) && Good(c, Plain) && Good(d, Plain);
      PlainIsNote(e);
    }
  }

  lemma PlainIsAny(s: string, at: Place)
    requires Good(s, Plain)
    ensures Good(s, at)
  {
    PlainIsNote(s);
    PlainIsStart(s);
  }

  /** The four replacements of the parser. */
  predicate LineEdit(pat: string, sub: string) {
    || (pat == "\r\n" && sub == "\n") || (pat == "\r" && sub == "\n")
    || (pat == "\n " && sub == "") || (pat == "\n\t" && sub == "")
  }

  /** Where the scan stands after the pattern. */
  function Resumed(sub: string): Place { if sub == "" then Plain else Start }

  lemma PatternScanned(s: string, at: Place, pat: string, sub: string)
    requires LineEdit(pat, sub) && pat <= s && Good(s, at) && at != Start
    ensures Good(s[|pat|..], Resumed(sub))
  {
    var rest := s[1..];
    assert s[0] == pat[0] && Good(rest, Start);
    if |pat| == 2 {
      assert rest[0] == s[1] == pat[1];
      assert !("NOTE:" <= rest) by { assert rest[0] != 'N'; }
      assert Good(rest, Plain) && rest[1..] == s[2..];
    }
  }

  lemma EditScanned(x: string, at: Place, sub: string)
    requires (sub == "" || sub == "\n") && Good(x, Resumed(sub)) && at != Start
    ensures Good(sub + x, at)
  {
    if sub == "" {
      PlainIsAny(x, at);
      assert sub + x == x;
    } else {
      assert (sub + x)[1..] == x;
    }
  }

  lemma CharCopied(s: string, pat: string, sub: string)
    requires |pat| >= 1 && |s| >= 1 && !(pat <= s)
    ensures ReplaceAll(s, pat, sub) == [s[0]] + ReplaceAll(s[1..], pat, sub)
  {
    if |s| < |pat| {
      assert |s[1..]| < |pat| && [s[0]] + s[1..] == s;
    }
  }

  lemma NoteCopied(s: string, pat: string, sub: string)
    requires LineEdit(pat, sub) && "NOTE:" <= s
    ensures ReplaceAll(s, pat, sub) == "NOTE:" + ReplaceAll(s[5..], pat, sub)
  {
    ReplaceSkips("NOTE:", s[5..], pat, sub);
    assert "NOTE:" + s[5..] == s;
  }

  /** Normalising line ends and unfolding keep a text good. */
  lemma {:induction false} EditKeepsGood(s: string, at: Place, pat: string, sub: string)
    requires LineEdit(pat, sub) && Good(s, at)
    ensures Good(ReplaceAll(s, pat, sub), at)
    decreases |s|, if at == Start then 1 else 0
  {
    hide ReplaceAll;
    if at == Start && "NOTE:" <= s {
      EditKeepsGood(s[5..], Note, pat, sub);
      NoteCopied(s, pat, sub);
      assert ("NOTE:" + ReplaceAll(s[5..], pat, sub))[5..] == ReplaceAll(s[5..], pat, sub);
    } else if at == Start {
      EditKeepsGood(s, Plain, pat, sub);
      PlainIsStart(ReplaceAll(s, pat, sub));
    } else if pat <= s {
      PatternScanned(s, at, pat, sub);
      EditKeepsGood(s[|pat|..], Resumed(sub), pat, sub);
      EditScanned(ReplaceAll(s[|pat|..], pat, sub), at, sub);
      PatternReplaced(s, pat, sub);
    } else if |s| > 0 {
      CharCopied(s, pat, sub);
      if at == Plain && s[0] == '\\' {
        EditKeepsGood(s[2..], Plain, pat, sub);
        PairKeepsGood(s, pat, sub);
      } else {
        EditKeepsGood(s[1..], if IsBreak(s[0]) then Start else at, pat, sub);
        assert ([s[0]] + ReplaceAll(s[1..], pat, sub))[1..] == ReplaceAll(s[1..], pat, sub);
      }
    } else {
      EmptyReplaced(pat, sub);
    }
  }

  lemma EmptyReplaced(pat: string, sub: string)
    requires |pat| >= 1
    ensures ReplaceAll("", pat, sub) == ""
  {
  }

  lemma PatternReplaced(s: string, pat: string, sub: string)
    requires |pat| >= 1 && pat <= s
    ensures ReplaceAll(s, pat, sub) == sub + ReplaceAll(s[|pat|..], pat, sub)
  {
  }

  lemma PairKeepsGood(s: string, pat: string, sub: string)
    requires LineEdit(pat, sub) && Good(s, Plain) && |s| > 0 && s[0] == '\\'
    requires Good(ReplaceAll(s[2..], pat, sub), Plain)
    ensures Good(ReplaceAll(s, pat, sub), Plain)
  {
    hide ReplaceAll;
    ReplaceSkips([s[0], s[1]], s[2..], pat, sub);
    assert [s[0], s[1]] + s[2..] == s;
    assert ([s[0], s[1]] + ReplaceAll(s[2..], pat, sub))[2..] == ReplaceAll(s[2..], pat, sub);
  }

  lemma UnfoldedIsGood(s: string)
    requires Good(s, Start)
    ensures Good(Unfolded(s), Start)
  {
    hide ReplaceAll, Good;
    var a := ReplaceAll(s, "\r\n", "\n");
    EditKeepsGood(s, Start, "\r\n", "\n");
    var b := ReplaceAll(a, "\r", "\n");
    EditKeepsGood(a, Start, "\r", "\n");
    EditKeepsGood(b, Start, "\n ", "");
    EditKeepsGood(ReplaceAll(b, "\n ", ""), Start, "\n\t", "");
  }

  // What the lines of a good text unescape to.

  /** The first line of a good text, and the rest. */
  lemma {:induction false} GoodParts(s: string, at: Place)
    requires Good(s, at) && '\r' !in s
    ensures Good(Split(s, '\n')[0], at)
    ensures forall i :: 1 <= i < |Split(s, '\n')| ==> Good(Split(s, '\n')[i], Start)
    decreases |s|, if at == Start then 1 else 0
  {
    var parts := Split(s, '\n');
    if at == Start {
      if "NOTE:" <= s {
        GoodParts(s[5..], Note);
        NoteSplits(s);
      } else {
        GoodParts(s, Plain);
        PlainIsStart(parts[0]);
      }
    } else if |s| > 0 {
      if s[0] == '\n' {
        GoodParts(s[1..], Start);
      } else if at == Plain && s[0] == '\\' {
        GoodParts(s[2..], Plain);
        PairSplits(s);
      } else {
        GoodParts(s[1..], at);
        assert parts[0][1..] == Split(s[1..], '\n')[0];
      }
    }
  }

  lemma {:induction false} PrefixSplits(a: string, b: string)
    requires '\n' !in a
    ensures Split(a + b, '\n') == [a + Split(b, '\n')[0]] + Split(b, '\n')[1..]
  {
    if |a| == 0 {
      assert a + b == b && a + Split(b, '\n')[0] == Split(b, '\n')[0];
    } else {
      PrefixSplits(a[1..], b);
      assert (a + b)[0] == a[0] && (a + b)[1..] == a[1..] + b;
      assert [a[0]] + (a[1..] + Split(b, '\n')[0]) == a + Split(b, '\n')[0];
    }
  }

  lemma NoteSplits(s: string)
    requires "NOTE:" <= s
    ensures var p, q := Split(s, '\n'), Split(s[5..], '\n');
            p[0] == "NOTE:" + q[0] && p[0][5..] == q[0] && p[1..] == q[1..]
  {
    PrefixSplits("NOTE:", s[5..]);
    assert "NOTE:" + s[5..] == s;
  }

  lemma PairSplits(s: string)
    requires |s| > 1 && s[0] != '\n' && s[1] != '\n'
    ensures var p, q := Split(s, '\n'), Split(s[2..], '\n');
            p[0] == [s[0], s[1]] + q[0] && p[0][2..] == q[0] && p[1..] == q[1..]
  {
    PrefixSplits([s[0], s[1]], s[2..]);
    assert [s[0], s[1]] + s[2..] == s;
  }

  /** No line feed comes out of a good stretch without breaks. */
  lemma {:induction false} GoodUnescapes(s: string)
    requires Good(s, Plain) && NoBreaks(s)
    ensures '\n' !in Unescaped(s)
    decreases |s|
  {
    if |s| > 0 {
      if s[0] == '\\' {
        GoodUnescapes(s[2..]);
      } else {
        GoodUnescapes(s[1..]);
      }
    }
  }

  lemma {:induction false} GoodAfter(s: string, c: char)
    requires Good(s, Plain) && NoBreaks(s) && c != '\\' && c != ',' && c != ';'
    ensures Good(After(s, c), Plain) && NoBreaks(After(s, c))
    decreases |s|
  {
    if |s| > 0 && s[0] != c {
      if s[0] == '\\' {
        GoodAfter(s[2..], c);
        assert s[1..][0] == s[1] && s[1..][1..] == s[2..];
      } else {
        GoodAfter(s[1..], c);
      }
    }
  }

  lemma {:induction false} GoodWithoutLast(s: string)
    requires |s| > 0 && Good(s, Plain) && NoBreaks(s) && IsSpace(s[|s| - 1])
    ensures Good(s[..|s| - 1], Plain) && NoBreaks(s[..|s| - 1])
    decreases |s|
  {
    var t := s[..|s| - 1];
    if |s| > 1 {
      if s[0] == '\\' {
        GoodWithoutLast(s[2..]);
        assert t[2..] == s[2..][..|s| - 3];
      } else {
        GoodWithoutLast(s[1..]);
        assert t[1..] == s[1..][..|s| - 2];
      }
    }
  }

  lemma {:induction false} GoodTrims(s: string)
    requires Good(s, Plain) && NoBreaks(s)
    ensures Good(TrimRight(s), Plain) && NoBreaks(TrimRight(s))
    decreases |s|
  {
    if |s| > 0 && IsSpace(s[|s| - 1]) {
      GoodWithoutLast(s);
      GoodTrims(s[..|s| - 1]);
    }
  }

  /** A line of a good text is a note, or its value holds no line feed. */
  lemma GoodLineValue(line: string)
    requires Good(line, Start) && NoBreaks(line)
    ensures var cl := SplitContentLine(TrimRight(line)); cl.name == "NOTE" || '\n' !in Unescaped(cl.value)
  {
    hide Unescaped, TrimRight;
    if "NOTE:" <= line {
      NoteLineIsNote(line);
    } else {
      GoodTrims(line);
      var t := TrimRight(line);
      GoodAfter(t, ':');
      GoodUnescapes(After(t, ':'));
      UnescapedPlain("");
    }
  }

  lemma NoteLineIsNote(line: string)
    requires "NOTE:" <= line
    ensures SplitContentLine(TrimRight(line)).name == "NOTE"
  {
    hide Unescaped, TrimRight, HeadOf, SplitContentLine;
    assert line == "NOTE:" + line[5..];
    TrimRightAfter("NOTE:", line[5..]);
    SimpleHead("NOTE");
    HeadAndValue("NOTE", "NOTE", TrimRight(line[5..]));
    assert "NOTE" + ":" + TrimRight(line[5..]) == "NOTE:" + TrimRight(line[5..]);
  }

  lemma {:induction false} LinesKeepFeedsOut(lines: seq<string>)
    requires forall i :: 0 <= i < |lines| ==> Good(lines[i], Start) && NoBreaks(lines[i])
    ensures CardsWithout(AfterLines(State([], None), lines), '\n')
  {
    hide CardsWithout, AfterLine, SplitContentLine, Unescaped, TrimRight, Good;
    if |lines| == 0 {
      StartKeepsOut('\n');
    } else {
      LinesKeepFeedsOut(lines[..|lines| - 1]);
      GoodLineValue(lines[|lines| - 1]);
      LineKeepsOut(AfterLines(State([], None), lines[..|lines| - 1]), lines[|lines| - 1], '\n');
    }
  }

  lemma ParsedHasNoFeeds(text: string, card: Card)
    requires Good(text, Start) && card in ParsedCards(text)
    ensures FieldsWithout(card, '\n')
  {
    hide AfterLines, Unfolded, Split, FieldsWithout, Good;
    UnfoldedHasNoReturns(text);
    UnfoldedIsGood(text);
    GoodParts(Unfolded(text), Start);
    SplitParts(Unfolded(text), '\n');
    SplitKeepsOut(Unfolded(text), '\n', '\r');
    LinesKeepFeedsOut(Split(Unfolded(text), '\n'));
  }

  // Printed text is good when no note holds a carriage return.

  lemma BreakIsAny(b: string, at: Place)
    requires Good(b, Start) && |b| > 0 && IsBreak(b[0])
    ensures Good(b, at)
  {
    assert !("NOTE:" <= b);
  }

  lemma ConcatParts(a: string, b: string, n: nat)
    requires n <= |a|
    ensures (a + b)[n..] == a[n..] + b && (a + b)[..n] == a[..n]
    ensures |a| > 0 ==> (a + b)[0] == a[0]
  {
  }

  lemma {:induction false} GoodConcat(a: string, b: string, at: Place)
    requires Good(a, at) && Good(b, Start) && |b| > 0 && IsBreak(b[0])
    ensures Good(a + b, at)
    decreases |a|, if at == Start then 1 else 0
  {
    if at == Start && "NOTE:" <= a {
      GoodConcat(a[5..], b, Note);
      ConcatParts(a, b, 5);
    } else if at == Start {
      GoodConcat(a, b, Plain);
      PlainIsStart(a + b);
    } else if |a| == 0 {
      assert a + b == b;
      BreakIsAny(b, at);
    } else if at == Plain && a[0] == '\\' {
      GoodConcat(a[2..], b, Plain);
      ConcatParts(a, b, 2);
      assert (a + b)[1] == a[1];
    } else {
      GoodConcat(a[1..], b, if IsBreak(a[0]) then Start else at);
      ConcatParts(a, b, 1);
    }
  }

  predicate GoodLines(lines: seq<string>) { forall line :: line in lines ==> Good(line, Start) }

  lemma {:induction false} EndedIsGood(lines: seq<string>)
    requires GoodLines(lines)
    ensures Good(Ended(lines, "\r\n"), Start)
  {
    if |lines| > 0 {
      var rest := Ended(lines[1..], "\r\n");
      EndedIsGood(lines[1..]);
      EndedCons(lines, "\r\n");
      assert ("\r\n" + rest)[1..] == "\n" + rest && ("\n" + rest)[1..] == rest;
      assert Good("\n" + rest, Plain) && Good("\n" + rest, Start) && Good("\r\n" + rest, Plain);
      GoodConcat(lines[0], "\r\n" + rest, Start);
    }
  }

  lemma {:induction false} CodedIsGood(v: string, rest: string)
    requires Good(rest, Plain)
    ensures Good(Coded(v, false) + rest, Plain)
  {
    if |v| == 0 {
      assert Coded(v, false) + rest == rest;
    } else {
      CodedIsGood(v[1..], rest);
      var tail := Coded(v[1..], false) + rest;
      PlainIsStart(tail);
      assert Coded(v, false) + rest == Code(v[0], false) + tail;
      if |Code(v[0], false)| == 2 {
        assert (Code(v[0], false) + tail)[2..] == tail;
      } else {
        assert (Code(v[0], false) + tail)[1..] == tail;
      }
    }
  }

  lemma {:induction false} PrefixIsGood(p: string, rest: string)
    requires '\\' !in p && NoBreaks(p) && Good(rest, Plain)
    ensures Good(p + rest, Plain)
  {
    if |p| == 0 {
      assert p + rest == rest;
    } else {
      PrefixIsGood(p[1..], rest);
      assert (p + rest)[0] == p[0] && (p + rest)[1..] == p[1..] + rest;
    }
  }

  lemma PlainLineIsGood(p: string, v: string)
    requires '\\' !in p && NoBreaks(p)
    ensures Good(p + EscapeVCard(v), Start) && Good(EscapeVCard(v), Plain)
  {
    hide Good, EscapeVCard;
    EscapeIsCoded(v, false);
    assert Escape(v, false) == EscapeVCard(v);
    assert Good("", Plain) by { NothingIsGood(); }
    CodedIsGood(v, "");
    assert Coded(v, false) + "" == Coded(v, false);
    PrefixIsGood(p, EscapeVCard(v));
    PlainIsStart(p + EscapeVCard(v));
  }

  lemma NothingIsGood()
    ensures Good("", Plain)
  {
  }

  lemma FixedLineIsGood(p: string)
    requires '\\' !in p && NoBreaks(p)
    ensures Good(p, Start) && Good(p, Plain)
  {
    hide Good;
    NothingIsGood();
    PrefixIsGood(p, "");
    assert p + "" == p;
    PlainIsStart(p);
  }

  lemma {:induction false} NoteStretch(s: string)
    requires NoBreaks(s)
    ensures Good(s, Note)
  {
    if |s| > 0 {
      NoteStretch(s[1..]);
    }
  }

  lemma {:induction false} CodedHasNoBreaks(s: string, note: bool)
    requires '\r' !in s && (note || '\n' !in s)
    ensures NoBreaks(Coded(s, note))
  {
    if |s| > 0 {
      CodedHasNoBreaks(s[1..], note);
    }
  }

  lemma NoteLineIsGood(notes: string)
    requires '\r' !in notes
    ensures Good("NOTE:" + EscapeVCardNote(notes), Start)
  {
    hide EscapeVCardNote;
    EscapeIsCoded(notes, true);
    assert Escape(notes, true) == EscapeVCardNote(notes);
    CodedHasNoBreaks(notes, true);
    NoteStretch(EscapeVCardNote(notes));
    assert ("NOTE:" + EscapeVCardNote(notes))[5..] == EscapeVCardNote(notes);
  }

  lemma NameLineIsGood(f: Fields)
    ensures Good(NameLine(f), Start)
  {
    hide Good, EscapeVCard, Coded;
    EscapeIsCoded(f.lastName, false);
    EscapeIsCoded(f.firstName, false);
    assert Escape(f.lastName, false) == EscapeVCard(f.lastName)
           && Escape(f.firstName, false) == EscapeVCard(f.firstName);
    FixedLineIsGood(";;;");
    var tail := Coded(f.firstName, false) + ";;;";
    CodedIsGood(f.firstName, ";;;");
    PrefixIsGood(";", tail);
    CodedIsGood(f.lastName, ";" + tail);
    PrefixIsGood("N:", Coded(f.lastName, false) + (";" + tail));
    PlainIsStart("N:" + (Coded(f.lastName, false) + (";" + tail)));
    assert NameLine(f) == "N:" + (Coded(f.lastName, false) + (";" + tail));
  }

  lemma {:induction false} JoinIsGood(labels: seq<string>, rest: string)
    requires Good(rest, Plain)
    ensures Good(JoinedLabels(labels) + rest, Plain)
  {
    hide Good, EscapeVCard;
    if |labels| == 0 {
      assert JoinedLabels(labels) + rest == rest;
    } else {
      var last := labels[|labels| - 1];
      EscapeIsCoded(last, false);
      assert Escape(last, false) == EscapeVCard(last);
      CodedIsGood(last, rest);
      if |labels| > 1 {
        var tail := EscapeVCard(last) + rest;
        PrefixIsGood(",", tail);
        JoinIsGood(labels[..|labels| - 1], "," + tail);
        assert JoinedLabels(labels) + rest == JoinedLabels(labels[..|labels| - 1]) + ("," + tail);
      }
    }
  }

  lemma LabelLineIsGood(labels: seq<string>)
    ensures Good("CATEGORIES:" + JoinedLabels(labels), Start)
  {
    hide Good, JoinedLabels;
    NothingIsGood();
    JoinIsGood(labels, "");
    assert JoinedLabels(labels) + "" == JoinedLabels(labels);
    PrefixIsGood("CATEGORIES:", JoinedLabels(labels));
    PlainIsStart("CATEGORIES:" + JoinedLabels(labels));
  }

  lemma PrefixedIsGood(p: string, values: seq<string>)
    requires '\\' !in p && NoBreaks(p)
    ensures GoodLines(Prefixed(p, values))
  {
    hide Good, EscapeVCard;
    forall line | line in Prefixed(p, values)
      ensures Good(line, Start)
    {
      var i :| 0 <= i < |values| && Prefixed(p, values)[i] == line;
      PlainLineIsGood(p, values[i]);
    }
  }

  lemma OpeningIsGood(f: Fields, dn: string)
    ensures GoodLines(["BEGIN:VCARD", "VERSION:3.0", "FN:" + EscapeVCard(dn), NameLine(f)])
    ensures GoodLines(["END:VCARD"])
  {
    hide Good, EscapeVCard, NameLine;
    FixedLineIsGood("BEGIN:VCARD");
    FixedLineIsGood("VERSION:3.0");
    FixedLineIsGood("END:VCARD");
    PlainLineIsGood("FN:", dn);
    NameLineIsGood(f);
  }

  lemma ListLinesAreGood(f: Fields)
    ensures GoodLines(Prefixed("EMAIL" + ";" + "TYPE=INTERNET" + ":", f.emails))
            && GoodLines(Prefixed("TEL:", f.phones))
    ensures GoodLines(OrgLines(f)) && GoodLines(LabelLines(f))
  {
    hide Good, EscapeVCard, Prefixed, JoinedLabels, NoBreaks;
    assert NoBreaks("EMAIL" + ";" + "TYPE=INTERNET" + ":") && NoBreaks("TEL:")
           && NoBreaks("ORG:") && NoBreaks("TITLE:") by {
      HeadsHaveNoBreaks();
    }
    PlainLineIsGood("ORG:", f.company);
    PlainLineIsGood("TITLE:", f.jobTitle);
    PrefixedIsGood("EMAIL" + ";" + "TYPE=INTERNET" + ":", f.emails);
    PrefixedIsGood("TEL:", f.phones);
    LabelLineIsGood(f.labels);
  }

  lemma HeadsHaveNoBreaks()
    ensures NoBreaks("EMAIL" + ";" + "TYPE=INTERNET" + ":") && NoBreaks("TEL:")
            && NoBreaks("ORG:") && NoBreaks("TITLE:")
  {
  }

  lemma CardIsGood(f: Fields, dn: string)
    requires '\r' !in f.notes
    ensures GoodLines(CardLines(f, dn))
  {
    hide Good, EscapeVCard, EscapeVCardNote, NameLine, Prefixed, OrgLines, LabelLines;
    OpeningIsGood(f, dn);
    ListLinesAreGood(f);
    NoteLineIsGood(f.notes);
  }

  predicate ReturnFreeNotes(contacts: seq<Fields>) { forall f :: f in contacts ==> '\r' !in f.notes }

  lemma {:induction false} PrintedIsGood(contacts: seq<Fields>, names: seq<string>)
    requires ReturnFreeNotes(contacts)
    ensures GoodLines(AllLines(contacts, names))
  {
    hide Good, CardLines, PrintedName;
    if |contacts| > 0 {
      var n := |contacts| - 1;
      PrintedIsGood(contacts[..n], names);
      assert contacts[n] in contacts;
      CardIsGood(contacts[n], PrintedName(contacts[n], names, n));
    }
  }
}

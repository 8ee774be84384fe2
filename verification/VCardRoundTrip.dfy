/**
 Parsing what SerializeVCards printed: the card each contact comes back as, and exactly which
 contacts come back unchanged.
 */
module VCardRoundTrip {
  import opened Wrappers
  import opened Text
  import opened VCard
  import opened VCardText

  // ---- The lines come back -----------------------------------------------------------------------

  predicate NoBreaks(s: string) { '\r' !in s && '\n' !in s }

  /** A line no unfolding can touch. */
  predicate SolidLine(s: string) { NoBreaks(s) && |s| > 0 && s[0] != ' ' && s[0] != '\t' }

  predicate Solid(lines: seq<string>) { forall i :: 0 <= i < |lines| ==> SolidLine(lines[i]) }

  lemma EndedCons(lines: seq<string>, end: string)
    requires |lines| > 0
    ensures Ended(lines, end) == lines[0] + (end + Ended(lines[1..], end))
  {
    assert lines == [lines[0]] + lines[1..];
    EndedAppend([lines[0]], lines[1..], end);
    EndedOne(lines[0], end);
  }

  lemma {:induction false} CrlfToLf(lines: seq<string>)
    requires Solid(lines)
    ensures ReplaceAll(Ended(lines, "\r\n"), "\r\n", "\n") == Ended(lines, "\n")
  {
    if |lines| > 0 {
      var x, rest := lines[0], Ended(lines[1..], "\r\n");
      CrlfToLf(lines[1..]);
      EndedCons(lines, "\r\n");
      EndedCons(lines, "\n");
      ReplaceSkips(x, "\r\n" + rest, "\r\n", "\n");
      assert "\r\n" <= "\r\n" + rest && ("\r\n" + rest)[2..] == rest;
    }
  }

  lemma {:induction false} NoReturns(lines: seq<string>)
    requires Solid(lines)
    ensures '\r' !in Ended(lines, "\n")
  {
    if |lines| > 0 {
      NoReturns(lines[..|lines| - 1]);
      assert SolidLine(lines[|lines| - 1]);
    }
  }

  lemma {:induction false} NothingFolded(lines: seq<string>, c: char)
    requires Solid(lines) && (c == ' ' || c == '\t')
    ensures ReplaceAll(Ended(lines, "\n"), ['\n', c], "") == Ended(lines, "\n")
  {
    if |lines| > 0 {
      var x, rest := lines[0], Ended(lines[1..], "\n");
      NothingFolded(lines[1..], c);
      EndedCons(lines, "\n");
      ReplaceSkips(x, "\n" + rest, ['\n', c], "");
      if |lines| > 1 {
        EndedCons(lines[1..], "\n");
        assert rest[0] == lines[1][0];
        assert !(['\n', c] <= "\n" + rest) by { assert ("\n" + rest)[1] != c; }
      }
      assert ("\n" + rest)[1..] == rest;
    }
  }

  lemma {:induction false} LinesSplit(lines: seq<string>)
    requires Solid(lines)
    ensures Split(Ended(lines, "\n"), '\n') == lines + [""]
  {
    if |lines| > 0 {
      var x, rest := lines[0], Ended(lines[1..], "\n");
      LinesSplit(lines[1..]);
      EndedCons(lines, "\n");
      SplitAppend(x, rest, '\n');
      assert x + ("\n" + rest) == x + ['\n'] + rest;
      assert [x] + (lines[1..] + [""]) == lines + [""];
    }
  }

  lemma LinesComeBack(lines: seq<string>)
    requires Solid(lines)
    ensures Split(Unfolded(Ended(lines, "\r\n")), '\n') == lines + [""]
  {
    CrlfToLf(lines);
    NoReturns(lines);
    ReplaceNothing(Ended(lines, "\n"), "\r", "\n");
    NothingFolded(lines, ' ');
    NothingFolded(lines, '\t');
    LinesSplit(lines);
    assert "\n " == ['\n', ' '] && "\n\t" == ['\n', '\t'];
  }

  // ---- One content line --------------------------------------------------------------------------

  lemma {:induction false} AfterLinesAppend(st: State, a: seq<string>, b: seq<string>)
    ensures AfterLines(st, a + b) == AfterLines(AfterLines(st, a), b)
  {
    if |b| == 0 {
      assert a + b == a;
    } else {
      AfterLinesAppend(st, a, b[..|b| - 1]);
      assert (a + b)[..|a + b| - 1] == a + b[..|b| - 1];
    }
  }

  lemma AfterLinesMore(st: State, lines: seq<string>, line: string)
    ensures AfterLines(st, lines + [line]) == AfterLine(AfterLines(st, lines), line)
  {
    assert (lines + [line])[..|lines|] == lines;
  }

  lemma AfterOneLine(st: State, line: string)
    ensures AfterLines(st, [line]) == AfterLine(st, line)
  {
    assert [line][..0] == [];
  }

  /** A head that cannot begin BEGIN:VCARD or END:VCARD, and the property it names. */
  predicate HeadOf(head: string, name: string) {
    && ':' !in head && |head| > 0 && UpperChar(head[0]) != 'B'
    && (UpperChar(head[0]) == 'E' ==> |head| > 1 && UpperChar(head[1]) != 'N')
    && AfterLastDot(ToUpper(TrimSpace(Before(head, ';')))) == name && name != ""
  }

  lemma NoMarker(head: string, name: string, value: string)
    requires HeadOf(head, name)
    ensures ToUpper(head + ":" + value) != "BEGIN:VCARD" && ToUpper(head + ":" + value) != "END:VCARD"
  {
    hide TrimSpace, AfterLastDot, Before;
    var line := head + ":" + value;
    assert line[0] == head[0] && ToUpper(line)[0] == UpperChar(head[0]);
    assert |head| > 1 ==> line[1] == head[1] && ToUpper(line)[1] == UpperChar(head[1]);
  }

  lemma HeadAndValue(head: string, name: string, value: string)
    requires HeadOf(head, name)
    ensures SplitContentLine(head + ":" + value) == ContentLine(name, value)
  {
    hide TrimSpace, AfterLastDot, ToUpper, Before, After;
    var line := head + ":" + value;
    assert line == head + [':'] + value && line[|head|] == ':';
    BeforeAppend(head, value, ':');
  }

  lemma PropertyLine(out: seq<Card>, c: Card, head: string, name: string, raw: string)
    requires HeadOf(head, name)
    ensures AfterLine(State(out, Some(c)), head + ":" + raw) ==
            State(out, Some(WithProperty(c, name, Unescaped(TrimRight(raw)))))
  {
    var value := TrimRight(raw);
    assert head + ":" + raw == (head + ":") + raw;
    TrimRightAfter(head + ":", raw);
    NoMarker(head, name, value);
    HeadAndValue(head, name, value);
    assert name != "";
    hide WithProperty, Unescaped, SplitContentLine, ToUpper, TrimRight, HeadOf;
  }

  lemma SimpleHead(head: string)
    requires |head| > 0 && (forall i :: 0 <= i < |head| ==> 'A' <= head[i] <= 'Z') && head[0] != 'B'
    requires head[0] == 'E' ==> |head| > 1 && head[1] != 'N'
    ensures HeadOf(head, head)
  {
    BeforeWhole(head, ';');
    TrimSpaceTrims(head);
    assert ToUpper(head) == head;
  }

  /** A head with parameters names the property before them. */
  lemma HeadWithParameters(name: string, parameters: string)
    requires HeadOf(name, name) && ';' !in name && ':' !in parameters
    ensures HeadOf(name + ";" + parameters, name)
  {
    hide TrimSpace, AfterLastDot, ToUpper, Before;
    var head := name + ";" + parameters;
    assert head == name + [';'] + parameters;
    BeforeAppend(name, parameters, ';');
    BeforeWhole(name, ';');
    assert head[0] == name[0] && (|name| > 1 ==> head[1] == name[1]);
  }

  // ---- Trailing blanks ---------------------------------------------------------------------------

  /** Drops the trailing characters that print as spaces: in a note a line feed does not. */
  function TrimCoded(s: string, note: bool): string {
    if |s| > 0 && IsSpace(s[|s| - 1]) && !(note && s[|s| - 1] == '\n') then TrimCoded(s[..|s| - 1], note) else s
  }

  lemma {:induction false} TrimCodedIsTrimRight(s: string)
    ensures TrimCoded(s, false) == TrimRight(s)
  {
    if |s| > 0 {
      TrimCodedIsTrimRight(s[..|s| - 1]);
    }
  }

  lemma Assoc(a: string, b: string, c: string)
    ensures a + (b + c) == a + b + c
  {
  }

  lemma {:induction false} CodedAppend(a: string, b: string, note: bool)
    ensures Coded(a + b, note) == Coded(a, note) + Coded(b, note)
  {
    hide Code;
    if |a| == 0 {
      assert a + b == b;
    } else {
      CodedAppend(a[1..], b, note);
      assert (a + b)[0] == a[0] && (a + b)[1..] == a[1..] + b;
      Assoc(Code(a[0], note), Coded(a[1..], note), Coded(b, note));
    }
  }

  lemma {:induction false} TrimRightOfCoded(s: string, note: bool)
    ensures TrimRight(Coded(s, note)) == Coded(TrimCoded(s, note), note)
  {
    if |s| > 0 {
      var front, last := s[..|s| - 1], s[|s| - 1];
      assert s == front + [last];
      CodedAppend(front, [last], note);
      CodedOne(last, note);
      var code := Coded(s, note);
      CodeEnds(last, note);
      if IsSpace(last) && !(note && last == '\n') {
        hide Code, IsSpace;
        TrimRightOfCoded(front, note);
        assert code[..|code| - 1] == Coded(front, note);
      } else {
        hide Code, IsSpace;
        assert code[|code| - 1] == Code(last, note)[|Code(last, note)| - 1];
      }
    }
  }

  lemma CodedOne(c: char, note: bool)
    ensures Coded([c], note) == Code(c, note)
  {
    assert [c][1..] == [];
  }

  lemma CodeEnds(c: char, note: bool)
    ensures |Code(c, note)| > 0
    ensures IsSpace(Code(c, note)[|Code(c, note)| - 1]) <==> IsSpace(c) && !(note && c == '\n')
    ensures IsSpace(c) && !(note && c == '\n') ==> Code(c, note) == [c]
  {
  }

  /** A printed value comes back without its trailing blanks. */
  lemma ValueComesBack(v: string, note: bool)
    ensures Unescaped(TrimRight(Escape(v, note))) == TrimCoded(v, note)
  {
    EscapeIsCoded(v, note);
    TrimRightOfCoded(v, note);
    var kept := TrimCoded(v, note);
    UnescapeCoded(kept, note, []);
    assert Coded(kept, note) + [] == Coded(kept, note) && kept + [] == kept;
  }

  /** A property whose value is printed plainly. */
  lemma PlainProperty(out: seq<Card>, c: Card, head: string, name: string, v: string)
    requires HeadOf(head, name)
    ensures AfterLine(State(out, Some(c)), head + ":" + EscapeVCard(v)) ==
            State(out, Some(WithProperty(c, name, TrimRight(v))))
  {
    hide WithProperty, AfterLine, HeadOf;
    PropertyLine(out, c, head, name, EscapeVCard(v));
    ValueComesBack(v, false);
    TrimCodedIsTrimRight(v);
    assert EscapeVCard(v) == Escape(v, false);
  }

  // ---- Name, list and label lines ----------------------------------------------------------------

  lemma NameComesBack(out: seq<Card>, c: Card, f: Fields)
    ensures AfterLine(State(out, Some(c)), NameLine(f)) ==
            State(out, Some(c.(lastName := TrimSpace(Before(f.lastName + ";" + f.firstName + ";;;", ';')),
                               firstName :=
                                 TrimSpace(Before(After(f.lastName + ";" + f.firstName + ";;;", ';'), ';')))))
  {
    hide AfterLine, TrimSpace, Before, After, HeadOf;
    var raw := EscapeVCard(f.lastName) + ";" + EscapeVCard(f.firstName) + ";;;";
    var value := f.lastName + ";" + f.firstName + ";;;";
    assert NameLine(f) == "N" + ":" + raw;
    assert Unescaped(TrimRight(raw)) == value by {
      assert raw[|raw| - 1] == ';' && TrimRight(raw) == raw;
      NameUnescapes(f.lastName, f.firstName);
    }
    SimpleHead("N");
    PropertyLine(out, c, "N", "N", raw);
    assert value[|f.lastName|] == ';';
  }

  lemma NameUnescapes(last: string, first: string)
    ensures Unescaped(EscapeVCard(last) + ";" + EscapeVCard(first) + ";;;") == last + ";" + first + ";;;"
  {
    hide Coded;
    EscapeIsCoded(last, false);
    EscapeIsCoded(first, false);
    var tail := Coded(first, false) + ";;;";
    assert EscapeVCard(last) + ";" + EscapeVCard(first) + ";;;" == Coded(last, false) + (";" + tail);
    UnescapeCoded(last, false, ";" + tail);
    assert (";" + tail)[1..] == tail && Unescaped(";" + tail) == ";" + Unescaped(tail);
    UnescapeCoded(first, false, ";;;");
    UnescapedPlain(";;;");
    assert last + (";" + (first + ";;;")) == last + ";" + first + ";;;";
  }

  lemma CollectTrimmed(list: seq<string>, v: string)
    ensures Collect(list, TrimRight(v)) == Collect(list, v)
  {
    TrimSpaceOfTrimRight(v);
  }

  lemma {:induction false} EmailsComeBack(out: seq<Card>, c: Card, emails: seq<string>)
    ensures AfterLines(State(out, Some(c)), Prefixed("EMAIL" + ";" + "TYPE=INTERNET" + ":", emails)) ==
            State(out, Some(c.(emails := CollectAll(c.emails, emails))))
  {
    hide AfterLine, EscapeVCard, Collect, HeadOf;
    var head := "EMAIL" + ";" + "TYPE=INTERNET";
    if |emails| > 0 {
      var front, last := emails[..|emails| - 1], emails[|emails| - 1];
      EmailsComeBack(out, c, front);
      assert Prefixed(head + ":", emails)[..|emails| - 1] == Prefixed(head + ":", front);
      SimpleHead("EMAIL");
      HeadWithParameters("EMAIL", "TYPE=INTERNET");
      PlainProperty(out, c.(emails := CollectAll(c.emails, front)), head, "EMAIL", last);
      CollectTrimmed(CollectAll(c.emails, front), last);
    }
  }

  lemma {:induction false} PhonesComeBack(out: seq<Card>, c: Card, phones: seq<string>)
    ensures AfterLines(State(out, Some(c)), Prefixed("TEL:", phones)) ==
            State(out, Some(c.(phones := CollectAll(c.phones, phones))))
  {
    hide AfterLine, EscapeVCard, Collect, HeadOf;
    if |phones| > 0 {
      var front, last := phones[..|phones| - 1], phones[|phones| - 1];
      PhonesComeBack(out, c, front);
      assert Prefixed("TEL:", phones)[..|phones| - 1] == Prefixed("TEL:", front);
      SimpleHead("TEL");
      PlainProperty(out, c.(phones := CollectAll(c.phones, front)), "TEL", "TEL", last);
      assert "TEL" + ":" + EscapeVCard(last) == "TEL:" + EscapeVCard(last);
      CollectTrimmed(CollectAll(c.phones, front), last);
    }
  }

  lemma {:induction false} JoinUnescapes(labels: seq<string>, rest: string)
    ensures Unescaped(JoinedLabels(labels) + rest) == Join(labels, ',') + Unescaped(rest)
  {
    hide EscapeVCard, Coded, Unescaped;
    if |labels| == 0 {
      assert "" + rest == rest && "" + Unescaped(rest) == Unescaped(rest);
    } else {
      var last := labels[|labels| - 1];
      EscapeIsCoded(last, false);
      assert Escape(last, false) == EscapeVCard(last);
      UnescapeCoded(last, false, rest);
      if |labels| > 1 {
        var front, tail := labels[..|labels| - 1], Coded(last, false) + rest;
        JoinUnescapes(front, "," + tail);
        CommaUnescapes(tail);
        assert JoinedLabels(labels) + rest == JoinedLabels(front) + ("," + tail);
        assert Join(front, ',') + ("," + (last + Unescaped(rest))) == Join(front, ',') + "," + last + Unescaped(rest);
      }
    }
  }

  lemma CommaUnescapes(tail: string)
    ensures Unescaped("," + tail) == "," + Unescaped(tail)
  {
    assert ("," + tail)[1..] == tail;
  }

  lemma JoinTrims(labels: seq<string>)
    requires |labels| > 0
    ensures Unescaped(TrimRight(JoinedLabels(labels))) == TrimRight(Join(labels, ','))
  {
    hide EscapeVCard, Unescaped, TrimRight;
    var last := labels[|labels| - 1];
    ValueComesBack(last, false);
    TrimCodedIsTrimRight(last);
    assert Escape(last, false) == EscapeVCard(last);
    if |labels| > 1 {
      LongJoinTrims(labels[..|labels| - 1], last);
    }
  }

  lemma LongJoinTrims(front: seq<string>, last: string)
    requires Unescaped(TrimRight(EscapeVCard(last))) == TrimRight(last)
    ensures Unescaped(TrimRight(JoinedLabels(front) + "," + EscapeVCard(last))) ==
            TrimRight(Join(front, ',') + "," + last)
  {
    hide EscapeVCard, Unescaped, TrimRight, JoinedLabels, Join;
    TrimRightAfter(JoinedLabels(front) + ",", EscapeVCard(last));
    TrimRightAfter(Join(front, ',') + ",", last);
    var kept := TrimRight(EscapeVCard(last));
    JoinUnescapes(front, "," + kept);
    CommaUnescapes(kept);
    assert JoinedLabels(front) + "," + kept == JoinedLabels(front) + ("," + kept);
    assert Join(front, ',') + ("," + TrimRight(last)) == Join(front, ',') + "," + TrimRight(last);
  }

  function LabelsBack(labels: seq<string>): seq<string> {
    if |labels| == 0 then [] else CollectAll([], Split(TrimRight(Join(labels, ',')), ','))
  }

  // ---- The card a contact comes back as ----------------------------------------------------------

  function Reparsed(f: Fields, dn: string): Card {
    var name := f.lastName + ";" + f.firstName + ";;;";
    Closed(Card(
      TrimSpace(dn), TrimSpace(Before(After(name, ';'), ';')), TrimSpace(Before(name, ';')),
      TrimSpace(Before(TrimRight(f.company), ';')), TrimSpace(f.jobTitle),
      CollectAll([], f.emails), CollectAll([], f.phones), LabelsBack(f.labels), TrimCoded(f.notes, true)))
  }

  lemma OpeningLines(out: seq<Card>, f: Fields, dn: string)
    ensures AfterLines(State(out, None), ["BEGIN:VCARD", "VERSION:3.0", "FN:" + EscapeVCard(dn), NameLine(f)]) ==
            AfterLine(State(out, Some(EMPTY_CARD.(displayName := TrimSpace(dn)))), NameLine(f))
  {
    hide EscapeVCard, NameLine, TrimSpace, HeadOf;
    var start, fn := State(out, None), "FN:" + EscapeVCard(dn);
    BeginLine(out);
    VersionLine(out);
    DisplayNameLine(out, dn);
    hide AfterLine, AfterLines;
    AfterOneLine(start, "BEGIN:VCARD");
    AfterLinesMore(start, ["BEGIN:VCARD"], "VERSION:3.0");
    AfterLinesMore(start, ["BEGIN:VCARD"] + ["VERSION:3.0"], fn);
    AfterLinesMore(start, ["BEGIN:VCARD"] + ["VERSION:3.0"] + [fn], NameLine(f));
    assert ["BEGIN:VCARD"] + ["VERSION:3.0"] + [fn] + [NameLine(f)] == ["BEGIN:VCARD", "VERSION:3.0", fn, NameLine(f)];
  }

  lemma BeginLine(out: seq<Card>)
    ensures AfterLine(State(out, None), "BEGIN:VCARD") == State(out, Some(EMPTY_CARD))
  {
    assert ToUpper("BEGIN:VCARD") == "BEGIN:VCARD";
  }

  lemma EndLine(out: seq<Card>, c: Card)
    ensures AfterLine(State(out, Some(c)), "END:VCARD") == State(out + [Closed(c)], None)
  {
    hide Closed;
    assert ToUpper("END:VCARD") == "END:VCARD";
    assert "END:VCARD"[0] != "BEGIN:VCARD"[0];
  }

  lemma VersionLine(out: seq<Card>)
    ensures AfterLine(State(out, Some(EMPTY_CARD)), "VERSION:3.0") == State(out, Some(EMPTY_CARD))
  {
    hide AfterLine, HeadOf;
    SimpleHead("VERSION");
    PropertyLine(out, EMPTY_CARD, "VERSION", "VERSION", "3.0");
    assert "VERSION" + ":" + "3.0" == "VERSION:3.0";
    assert "VERSION"[0] == 'V';
  }

  lemma DisplayNameLine(out: seq<Card>, dn: string)
    ensures AfterLine(State(out, Some(EMPTY_CARD)), "FN:" + EscapeVCard(dn)) ==
            State(out, Some(EMPTY_CARD.(displayName := TrimSpace(dn))))
  {
    hide AfterLine, EscapeVCard, HeadOf;
    SimpleHead("FN");
    PlainProperty(out, EMPTY_CARD, "FN", "FN", dn);
    TrimSpaceOfTrimRight(dn);
    assert "FN" + ":" + EscapeVCard(dn) == "FN:" + EscapeVCard(dn);
  }

  lemma OrgComesBack(out: seq<Card>, c: Card, f: Fields)
    requires c.company == "" && c.jobTitle == ""
    ensures AfterLines(State(out, Some(c)), OrgLines(f)) ==
            State(out, Some(c.(company := TrimSpace(Before(TrimRight(f.company), ';')),
                             jobTitle := TrimSpace(f.jobTitle))))
  {
    hide AfterLine, EscapeVCard, HeadOf;
    if f.company != "" || f.jobTitle != "" {
      hide TrimSpace;
      SimpleHead("ORG");
      SimpleHead("TITLE");
      PlainProperty(out, c, "ORG", "ORG", f.company);
      var c' := c.(company := TrimSpace(Before(TrimRight(f.company), ';')));
      PlainProperty(out, c', "TITLE", "TITLE", f.jobTitle);
      TrimSpaceOfTrimRight(f.jobTitle);
      assert "ORG" + ":" + EscapeVCard(f.company) == "ORG:" + EscapeVCard(f.company);
      assert "TITLE" + ":" + EscapeVCard(f.jobTitle) == "TITLE:" + EscapeVCard(f.jobTitle);
      assert OrgLines(f)[..1] == ["ORG:" + EscapeVCard(f.company)];
      AfterOneLine(State(out, Some(c)), "ORG:" + EscapeVCard(f.company));
    }
  }

  lemma LabelsComeBack(out: seq<Card>, c: Card, f: Fields)
    requires c.labels == []
    ensures AfterLines(State(out, Some(c)), LabelLines(f)) == State(out, Some(c.(labels := LabelsBack(f.labels))))
  {
    hide AfterLine, HeadOf, JoinedLabels, Join, TrimRight, CollectAll;
    if |f.labels| > 0 {
      SimpleHead("CATEGORIES");
      PropertyLine(out, c, "CATEGORIES", "CATEGORIES", JoinedLabels(f.labels));
      JoinTrims(f.labels);
      assert "CATEGORIES" + ":" + JoinedLabels(f.labels) == "CATEGORIES:" + JoinedLabels(f.labels);
      AfterOneLine(State(out, Some(c)), "CATEGORIES:" + JoinedLabels(f.labels));
      LabelsProperty(c, TrimRight(Join(f.labels, ',')));
    }
  }

  lemma LabelsProperty(c: Card, value: string)
    ensures WithProperty(c, "CATEGORIES", value) == c.(labels := CollectAll(c.labels, Split(value, ',')))
  {
    assert "CATEGORIES"[0] == 'C';
  }

  lemma NotesComeBack(out: seq<Card>, c: Card, f: Fields)
    requires c.notes == ""
    ensures AfterLines(State(out, Some(c)), NoteLines(f)) == State(out, Some(c.(notes := TrimCoded(f.notes, true))))
  {
    hide AfterLine, HeadOf, EscapeVCardNote;
    if f.notes != "" {
      SimpleHead("NOTE");
      PropertyLine(out, c, "NOTE", "NOTE", EscapeVCardNote(f.notes));
      ValueComesBack(f.notes, true);
      assert "NOTE" + ":" + EscapeVCardNote(f.notes) == "NOTE:" + EscapeVCardNote(f.notes);
      AfterOneLine(State(out, Some(c)), "NOTE:" + EscapeVCardNote(f.notes));
    }
  }

  /** The lines of one contact leave one more card. */
  lemma CardComesBack(out: seq<Card>, f: Fields, dn: string)
    ensures AfterLines(State(out, None), CardLines(f, dn)) == State(out + [Reparsed(f, dn)], None)
  {
    hide AfterLine, AfterLines, NameLine, OrgLines, LabelLines, NoteLines, Prefixed, EscapeVCard, TrimSpace, TrimRight,
      Before, After, Closed, CollectAll, LabelsBack, TrimCoded;
    var open := ["BEGIN:VCARD", "VERSION:3.0", "FN:" + EscapeVCard(dn), NameLine(f)];
    var emails, phones := Prefixed("EMAIL" + ";" + "TYPE=INTERNET" + ":", f.emails), Prefixed("TEL:", f.phones);
    var start := State(out, None);
    var name := f.lastName + ";" + f.firstName + ";;;";
    OpeningLines(out, f, dn);
    var c0 := EMPTY_CARD.(displayName := TrimSpace(dn));
    NameComesBack(out, c0, f);
    var c1 := c0.(lastName := TrimSpace(Before(name, ';')), firstName := TrimSpace(Before(After(name, ';'), ';')));
    OrgComesBack(out, c1, f);
    var c2 := c1.(company := TrimSpace(Before(TrimRight(f.company), ';')), jobTitle := TrimSpace(f.jobTitle));
    EmailsComeBack(out, c2, f.emails);
    var c3 := c2.(emails := CollectAll([], f.emails));
    PhonesComeBack(out, c3, f.phones);
    var c4 := c3.(phones := CollectAll([], f.phones));
    LabelsComeBack(out, c4, f);
    var c5 := c4.(labels := LabelsBack(f.labels));
    NotesComeBack(out, c5, f);
    var c6 := c5.(notes := TrimCoded(f.notes, true));
    AfterLinesAppend(start, open, OrgLines(f));
    AfterLinesAppend(start, open + OrgLines(f), emails);
    AfterLinesAppend(start, open + OrgLines(f) + emails, phones);
    AfterLinesAppend(start, open + OrgLines(f) + emails + phones, LabelLines(f));
    AfterLinesAppend(start, open + OrgLines(f) + emails + phones + LabelLines(f), NoteLines(f));
    AfterLinesAppend(start, open + OrgLines(f) + emails + phones + LabelLines(f) + NoteLines(f), ["END:VCARD"]);
    AfterOneLine(State(out, Some(c6)), "END:VCARD");
    EndLine(out, c6);
  }
}

/**
 The round-trip theorem for every list of contacts.
 */
module VCardExact {
  import opened Wrappers
  import opened Text
  import opened VCard
  import opened VCardText
  import opened VCardRoundTrip
  import opened VCardDomain
  import opened VCardBreaks

  function ExpectedCards(contacts: seq<Fields>, names: seq<string>): seq<Card> {
    seq(|contacts|, i requires 0 <= i < |contacts| => Expected(contacts[i], PrintedName(contacts[i], names, i)))
  }

  function ReparsedCards(contacts: seq<Fields>, names: seq<string>): seq<Card> {
    seq(|contacts|, i requires 0 <= i < |contacts| => Reparsed(contacts[i], PrintedName(contacts[i], names, i)))
  }

  predicate AllUnbroken(contacts: seq<Fields>, names: seq<string>) {
    forall i :: 0 <= i < |contacts| ==> Unbroken(contacts[i], PrintedName(contacts[i], names, i))
  }

  predicate AllWellFormed(contacts: seq<Fields>, names: seq<string>) {
    forall i :: 0 <= i < |contacts| ==> WellFormed(contacts[i], PrintedName(contacts[i], names, i))
  }

  // ---- Unbroken contacts print solid lines -------------------------------------------------------

  lemma EscapeHasNoBreaks(s: string)
    requires NoBreaks(s)
    ensures NoBreaks(EscapeVCard(s))
  {
    hide EscapeVCard;
    EscapeIsCoded(s, false);
    assert Escape(s, false) == EscapeVCard(s);
    CodedHasNoBreaks(s, false);
  }

  lemma NoteHasNoBreaks(s: string)
    requires '\r' !in s
    ensures NoBreaks(EscapeVCardNote(s))
  {
    hide EscapeVCardNote;
    EscapeIsCoded(s, true);
    assert Escape(s, true) == EscapeVCardNote(s);
    CodedHasNoBreaks(s, true);
  }

  lemma {:induction false} JoinHasNoBreaks(labels: seq<string>)
    requires NoneBroken(labels)
    ensures NoBreaks(JoinedLabels(labels))
  {
    hide EscapeVCard;
    if |labels| > 0 {
      EscapeHasNoBreaks(labels[|labels| - 1]);
      JoinHasNoBreaks(labels[..|labels| - 1]);
    }
  }

  lemma PrefixedIsSolid(p: string, values: seq<string>)
    requires SolidLine(p) && NoneBroken(values)
    ensures Solid(Prefixed(p, values))
  {
    hide EscapeVCard;
    forall i | 0 <= i < |values|
      ensures SolidLine(Prefixed(p, values)[i])
    {
      EscapeHasNoBreaks(values[i]);
    }
  }

  lemma ListHeadsAreSolid()
    ensures SolidLine("EMAIL" + ";" + "TYPE=INTERNET" + ":") && SolidLine("TEL:")
  {
  }

  lemma OptionalHeadsAreSolid()
    ensures SolidLine("ORG:") && SolidLine("TITLE:") && SolidLine("CATEGORIES:") && SolidLine("NOTE:")
  {
  }

  lemma OpeningHeadsAreSolid()
    ensures SolidLine("FN:") && SolidLine("N:")
    ensures SolidLine("BEGIN:VCARD") && SolidLine("VERSION:3.0") && SolidLine("END:VCARD")
  {
  }

  lemma SolidPrefix(p: string, value: string)
    requires SolidLine(p) && NoBreaks(value)
    ensures SolidLine(p + value)
  {
    assert (p + value)[0] == p[0];
  }

  lemma NameIsSolid(f: Fields, dn: string)
    requires Unbroken(f, dn)
    ensures SolidLine(NameLine(f))
  {
    hide EscapeVCard;
    EscapeHasNoBreaks(f.lastName);
    EscapeHasNoBreaks(f.firstName);
    OpeningHeadsAreSolid();
    SolidPrefix("N:", EscapeVCard(f.lastName));
    SolidPrefix("N:" + EscapeVCard(f.lastName), ";");
    SolidPrefix("N:" + EscapeVCard(f.lastName) + ";", EscapeVCard(f.firstName));
    SolidPrefix("N:" + EscapeVCard(f.lastName) + ";" + EscapeVCard(f.firstName), ";;;");
  }

  lemma OptionalLinesAreSolid(f: Fields, dn: string)
    requires Unbroken(f, dn)
    ensures Solid(OrgLines(f)) && Solid(LabelLines(f)) && Solid(NoteLines(f))
  {
    hide EscapeVCard, EscapeVCardNote, JoinedLabels, SolidLine;
    OptionalHeadsAreSolid();
    EscapeHasNoBreaks(f.company);
    EscapeHasNoBreaks(f.jobTitle);
    JoinHasNoBreaks(f.labels);
    NoteHasNoBreaks(f.notes);
    SolidPrefix("ORG:", EscapeVCard(f.company));
    SolidPrefix("TITLE:", EscapeVCard(f.jobTitle));
    SolidPrefix("CATEGORIES:", JoinedLabels(f.labels));
    SolidPrefix("NOTE:", EscapeVCardNote(f.notes));
  }

  lemma SolidAppend(a: seq<string>, b: seq<string>)
    requires Solid(a) && Solid(b)
    ensures Solid(a + b)
  {
    hide SolidLine;
  }

  lemma CardIsSolid(f: Fields, dn: string)
    requires Unbroken(f, dn)
    ensures Solid(CardLines(f, dn))
  {
    hide EscapeVCard, NameLine, OrgLines, LabelLines, NoteLines, Prefixed, SolidLine, Solid;
    var open := ["BEGIN:VCARD", "VERSION:3.0", "FN:" + EscapeVCard(dn), NameLine(f)];
    OpeningIsSolid(f, dn);
    OptionalLinesAreSolid(f, dn);
    ListHeadsAreSolid();
    var emails, phones := Prefixed("EMAIL" + ";" + "TYPE=INTERNET" + ":", f.emails), Prefixed("TEL:", f.phones);
    PrefixedIsSolid("EMAIL" + ";" + "TYPE=INTERNET" + ":", f.emails);
    PrefixedIsSolid("TEL:", f.phones);
    SolidAppend(open, OrgLines(f));
    SolidAppend(open + OrgLines(f), emails);
    SolidAppend(open + OrgLines(f) + emails, phones);
    SolidAppend(open + OrgLines(f) + emails + phones, LabelLines(f));
    SolidAppend(open + OrgLines(f) + emails + phones + LabelLines(f), NoteLines(f));
    SolidAppend(open + OrgLines(f) + emails + phones + LabelLines(f) + NoteLines(f), ["END:VCARD"]);
  }

  lemma OpeningIsSolid(f: Fields, dn: string)
    requires Unbroken(f, dn)
    ensures Solid(["BEGIN:VCARD", "VERSION:3.0", "FN:" + EscapeVCard(dn), NameLine(f)]) && Solid(["END:VCARD"])
  {
    hide EscapeVCard, NameLine, SolidLine;
    OpeningHeadsAreSolid();
    EscapeHasNoBreaks(dn);
    SolidPrefix("FN:", EscapeVCard(dn));
    NameIsSolid(f, dn);
  }

  lemma {:induction false} AllAreSolid(contacts: seq<Fields>, names: seq<string>)
    requires AllUnbroken(contacts, names)
    ensures Solid(AllLines(contacts, names))
  {
    hide CardLines, PrintedName, Unbroken, SolidLine;
    if |contacts| > 0 {
      var n := |contacts| - 1;
      AllAreSolid(contacts[..n], names);
      CardIsSolid(contacts[n], PrintedName(contacts[n], names, n));
    }
  }

  // ---- What an unbroken list comes back as -------------------------------------------------------

  lemma {:induction false} LinesOfAll(contacts: seq<Fields>, names: seq<string>)
    ensures AfterLines(State([], None), AllLines(contacts, names)) == State(ReparsedCards(contacts, names), None)
  {
    hide CardLines, PrintedName, Reparsed;
    if |contacts| > 0 {
      var n := |contacts| - 1;
      var f, dn := contacts[n], PrintedName(contacts[n], names, n);
      LinesOfAll(contacts[..n], names);
      AfterLinesAppend(State([], None), AllLines(contacts[..n], names), CardLines(f, dn));
      CardComesBack(ReparsedCards(contacts[..n], names), f, dn);
      assert ReparsedCards(contacts, names) == ReparsedCards(contacts[..n], names) + [Reparsed(f, dn)];
    }
  }

  lemma BlankLine(st: State)
    ensures AfterLine(st, "") == st
  {
  }

  /** The cards an unbroken list of contacts is parsed back into. */
  lemma UnbrokenListComesBack(contacts: seq<Fields>, names: seq<string>)
    requires AllUnbroken(contacts, names)
    ensures ParsedCards(Serialized(contacts, names)) == ReparsedCards(contacts, names)
  {
    hide AllLines, Ended, Unfolded, Split, AfterLine, ReparsedCards, Solid, AllUnbroken;
    var lines := AllLines(contacts, names);
    AllAreSolid(contacts, names);
    LinesComeBack(lines);
    LinesOfAll(contacts, names);
    AfterLinesMore(State([], None), lines, "");
    BlankLine(AfterLines(State([], None), lines));
  }

  // ---- The theorem -------------------------------------------------------------------------------

  /** A list that comes back has no stray line breaks. */
  lemma ComesBackUnbroken(contacts: seq<Fields>, names: seq<string>)
    requires ParsedCards(Serialized(contacts, names)) == ExpectedCards(contacts, names)
    ensures AllUnbroken(contacts, names)
  {
    hide ParsedCards, PrintedName, AllLines, Ended, Good;
    var text := Serialized(contacts, names);
    forall i | 0 <= i < |contacts|
      ensures FieldsWithout(Expected(contacts[i], PrintedName(contacts[i], names, i)), '\r')
              && '\r' !in contacts[i].notes
    {
      ParsedHasNoReturns(text, ExpectedCards(contacts, names)[i]);
    }
    assert ReturnFreeNotes(contacts);
    PrintedIsGood(contacts, names);
    EndedIsGood(AllLines(contacts, names));
    forall i | 0 <= i < |contacts|
      ensures Unbroken(contacts[i], PrintedName(contacts[i], names, i))
    {
      ParsedHasNoFeeds(text, ExpectedCards(contacts, names)[i]);
    }
  }

  /** For every list of contacts: parsing what was printed gives back the same cards, in order, exactly
      when no contact has stray line breaks and every contact is well-formed. */
  lemma RoundTrip(contacts: seq<Fields>, names: seq<string>)
    ensures ParsedCards(Serialized(contacts, names)) == ExpectedCards(contacts, names) <==>
            AllUnbroken(contacts, names) && AllWellFormed(contacts, names)
  {
    hide ParsedCards, Serialized, PrintedName, Unbroken, WellFormed, Reparsed, Expected;
    if ParsedCards(Serialized(contacts, names)) == ExpectedCards(contacts, names) {
      ComesBackUnbroken(contacts, names);
    }
    if AllUnbroken(contacts, names) {
      UnbrokenListComesBack(contacts, names);
      forall i | 0 <= i < |contacts|
        ensures ReparsedCards(contacts, names)[i] == ExpectedCards(contacts, names)[i] <==>
                WellFormed(contacts[i], PrintedName(contacts[i], names, i))
      {
        ContactSurvives(contacts[i], names, i);
      }
      if AllWellFormed(contacts, names) {
        assert ReparsedCards(contacts, names) == ExpectedCards(contacts, names);
      }
    }
  }
}

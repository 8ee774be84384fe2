/**
 Exactly which contact lists survive printing and parsing.
 */
module VCardDomain {
  import opened Wrappers
  import opened Text
  import opened VCard
  import opened VCardText
  import opened VCardRoundTrip

  /** The card that says the same as the contact. */
  function Expected(f: Fields, dn: string): Card {
    Card(dn, f.firstName, f.lastName, f.company, f.jobTitle, f.emails, f.phones, f.labels, f.notes)
  }

  /** Trimmed, non-empty entries, no two alike up to letter case. */
  predicate Clean(list: seq<string>) {
    && (forall v :: v in list ==> Trimmed(v) && v != "")
    && (forall i, j :: 0 <= i < j < |list| ==> !SameFolded(list[i], list[j]))
  }

  predicate NoCommas(list: seq<string>) { forall v :: v in list ==> ',' !in v }

  /** The fields that survive on their own line. */
  predicate WellFormed(f: Fields, dn: string) {
    && Trimmed(dn) && Trimmed(f.jobTitle)
    && Trimmed(f.firstName) && Trimmed(f.lastName) && Trimmed(f.company)
    && ';' !in f.firstName && ';' !in f.lastName && ';' !in f.company
    && Clean(f.emails) && Clean(f.phones) && Clean(f.labels) && NoCommas(f.labels)
    && (f.notes != "" && IsSpace(f.notes[|f.notes| - 1]) ==> f.notes[|f.notes| - 1] == '\n')
  }

  predicate NoneBroken(list: seq<string>) { forall v :: v in list ==> NoBreaks(v) }

  /** No line breaks outside the notes, and only line feeds in them. */
  predicate Unbroken(f: Fields, dn: string) {
    && NoBreaks(dn) && NoBreaks(f.firstName) && NoBreaks(f.lastName) && NoBreaks(f.company) && NoBreaks(f.jobTitle)
    && NoneBroken(f.emails) && NoneBroken(f.phones) && NoneBroken(f.labels) && '\r' !in f.notes
  }

  // ---- Lists -------------------------------------------------------------------------------------

  lemma {:induction false} CollectAllIsClean(values: seq<string>)
    ensures Clean(CollectAll([], values))
  {
    hide TrimSpace, SameFolded, Trimmed;
    if |values| > 0 {
      CollectAllIsClean(values[..|values| - 1]);
      CollectIsClean(CollectAll([], values[..|values| - 1]), values[|values| - 1]);
    }
  }

  lemma CollectIsClean(list: seq<string>, v: string)
    requires Clean(list)
    ensures Clean(Collect(list, v))
  {
    hide TrimSpace, SameFolded, Trimmed;
    TrimSpaceTrims(v);
  }

  lemma {:induction false} CleanCollects(list: seq<string>)
    requires Clean(list)
    ensures CollectAll([], list) == list
  {
    hide SameFolded, Trimmed, TrimSpace;
    if |list| > 0 {
      var front, last := list[..|list| - 1], list[|list| - 1];
      CleanCollects(front);
      TrimSpaceTrims(last);
      assert !Present(front, last);
      assert list == front + [last];
    }
  }

  lemma JoinTrimmed(labels: seq<string>)
    requires |labels| > 0 && Clean(labels)
    ensures TrimRight(Join(labels, ',')) == Join(labels, ',')
  {
    hide SameFolded;
    var last := labels[|labels| - 1];
    assert last in labels;
    assert Join(labels, ',')[|Join(labels, ',')| - 1] == last[|last| - 1];
  }

  lemma LabelsSurvive(labels: seq<string>)
    ensures LabelsBack(labels) == labels <==> Clean(labels) && NoCommas(labels)
  {
    hide Clean, CollectAll, Join, TrimRight;
    if |labels| == 0 {
      CollectAllIsClean([]);
      assert CollectAll([], []) == [] by { NothingCollected(); }
    } else {
      var parts := Split(TrimRight(Join(labels, ',')), ',');
      CollectAllIsClean(parts);
      SplitParts(TrimRight(Join(labels, ',')), ',');
      CollectAllNoCommas(parts);
      if Clean(labels) && NoCommas(labels) {
        SplitJoin(labels, ',');
        JoinTrimmed(labels);
        CleanCollects(labels);
      }
    }
  }

  lemma NothingCollected()
    ensures CollectAll([], []) == []
  {
  }

  lemma {:induction false} CollectAllNoCommas(values: seq<string>)
    requires forall i :: 0 <= i < |values| ==> ',' !in values[i]
    ensures NoCommas(CollectAll([], values))
  {
    hide TrimSpace, Present;
    if |values| > 0 {
      CollectAllNoCommas(values[..|values| - 1]);
      TrimSpaceKeepsOut(values[|values| - 1], ',');
    }
  }

  // ---- Operations that add no character ----------------------------------------------------------

  lemma {:induction false} TrimLeftKeepsOut(s: string, c: char)
    requires c !in s
    ensures c !in TrimLeft(s)
  {
    if |s| > 0 && IsSpace(s[0]) {
      TrimLeftKeepsOut(s[1..], c);
    }
  }

  lemma TrimRightKeepsOut(s: string, c: char)
    requires c !in s
    ensures c !in TrimRight(s)
  {
    TrimRightEnds(s);
  }

  lemma TrimSpaceKeepsOut(s: string, c: char)
    requires c !in s
    ensures c !in TrimSpace(s)
  {
    TrimLeftKeepsOut(s, c);
    TrimRightKeepsOut(TrimLeft(s), c);
  }

  lemma {:induction false} CutKeepsOut(s: string, sep: char, c: char)
    requires c !in s
    ensures c !in Before(s, sep) && c !in After(s, sep)
  {
    if |s| > 0 {
      CutKeepsOut(s[1..], sep, c);
    }
  }

  lemma {:induction false} SplitKeepsOut(s: string, sep: char, c: char)
    requires c !in s
    ensures forall i :: 0 <= i < |Split(s, sep)| ==> c !in Split(s, sep)[i]
  {
    if |s| > 0 {
      SplitKeepsOut(s[1..], sep, c);
    }
  }

  // ---- One contact -------------------------------------------------------------------------------

  lemma NameSurvives(last: string, first: string)
    ensures var name := last + ";" + first + ";;;";
            (TrimSpace(Before(name, ';')) == last && TrimSpace(Before(After(name, ';'), ';')) == first) <==>
            (Trimmed(last) && ';' !in last && Trimmed(first) && ';' !in first)
  {
    hide TrimSpace, Trimmed;
    var name := last + ";" + first + ";;;";
    BeforeWhole(name, ';');
    BeforeWhole(After(name, ';'), ';');
    TrimSpaceKeepsOut(Before(name, ';'), ';');
    TrimSpaceKeepsOut(Before(After(name, ';'), ';'), ';');
    TrimSpaceTrims(Before(name, ';'));
    TrimSpaceTrims(Before(After(name, ';'), ';'));
    if ';' !in last && ';' !in first {
      assert name == last + [';'] + (first + ";;;");
      BeforeAppend(last, first + ";;;", ';');
      assert first + ";;;" == first + [';'] + ";;";
      BeforeAppend(first, ";;", ';');
      TrimSpaceTrims(last);
      TrimSpaceTrims(first);
    }
  }

  lemma CompanySurvives(company: string)
    ensures TrimSpace(Before(TrimRight(company), ';')) == company <==> Trimmed(company) && ';' !in company
  {
    hide TrimSpace, Trimmed, TrimRight, Before;
    var head := Before(TrimRight(company), ';');
    BeforeWhole(TrimRight(company), ';');
    TrimSpaceKeepsOut(head, ';');
    TrimSpaceTrims(head);
    if Trimmed(company) && ';' !in company {
      TrimmedTrimsRight(company);
      TrimSpaceTrims(company);
    }
  }

  lemma TrimmedTrimsRight(s: string)
    requires Trimmed(s)
    ensures TrimRight(s) == s
  {
  }

  lemma {:induction false} NotesSurvive(notes: string)
    ensures TrimCoded(notes, true) == notes <==>
            (notes != "" && IsSpace(notes[|notes| - 1]) ==> notes[|notes| - 1] == '\n')
  {
    TrimCodedShrinks(notes);
  }

  lemma {:induction false} TrimCodedShrinks(s: string)
    ensures |TrimCoded(s, true)| <= |s|
    ensures s != "" && IsSpace(s[|s| - 1]) && s[|s| - 1] != '\n' ==> |TrimCoded(s, true)| < |s|
  {
    if |s| > 0 {
      TrimCodedShrinks(s[..|s| - 1]);
    }
  }

  /** A contact comes back unchanged exactly when it is well-formed. */
  lemma ContactSurvives(f: Fields, names: seq<string>, i: nat)
    ensures var dn := PrintedName(f, names, i);
            Reparsed(f, dn) == Expected(f, dn) <==> WellFormed(f, dn)
  {
    hide Clean, CollectAll, TrimSpace, Trimmed, Before, After, TrimRight, LabelsBack, TrimCoded, PrintedName, NoCommas;
    var dn := PrintedName(f, names, i);
    var first, last, company := Reparsed(f, dn).firstName, Reparsed(f, dn).lastName, Reparsed(f, dn).company;
    NameSurvives(f.lastName, f.firstName);
    CompanySurvives(f.company);
    TrimSpaceTrims(f.jobTitle);
    LabelsSurvive(f.labels);
    NotesSurvive(f.notes);
    ListSurvives(f.emails);
    ListSurvives(f.phones);
    CollectAllIsClean(f.emails);
    DisplayNameSurvives(f, names, i, first, last, CollectAll([], f.emails));
  }

  lemma ListSurvives(list: seq<string>)
    ensures CollectAll([], list) == list <==> Clean(list)
  {
    CollectAllIsClean(list);
    if Clean(list) {
      CleanCollects(list);
    }
  }

  /** The display name of a contact whose other fields came back. */
  lemma DisplayNameSurvives(f: Fields, names: seq<string>, i: nat, first: string, last: string, emails: seq<string>)
    requires Clean(emails)
    ensures var dn := PrintedName(f, names, i);
            var shown := if TrimSpace(dn) != "" then TrimSpace(dn)
                         else if TrimSpace(first + " " + last) == "" && |emails| > 0 then emails[0]
                         else TrimSpace(first + " " + last);
            && (shown == dn ==> Trimmed(dn))
            && (Trimmed(dn) && first == f.firstName && last == f.lastName && emails == f.emails ==> shown == dn)
  {
    hide TrimSpace, Trimmed;
    var dn := PrintedName(f, names, i);
    TrimSpaceTrims(dn);
    TrimSpaceTrims(first + " " + last);
  }
}

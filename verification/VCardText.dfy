/**
 SerializeVCards (internal/contacts/vcard.go), and what the parser reads back from its text.
 */
module VCardText {
  import opened Wrappers
  import opened Text
  import opened VCard

  /** The contact fields that are printed. */
  datatype Fields = Fields(
    displayName: string, firstName: string, lastName: string, company: string, jobTitle: string,
    emails: seq<string>, phones: seq<string>, labels: seq<string>, notes: string)

  /** The display name printed for contact f, names[i] being the caller's fallback. */
  function PrintedName(f: Fields, names: seq<string>, i: nat): string {
    var given := if f.displayName == "" && i < |names| then names[i] else f.displayName;
    var full := if given == "" then TrimSpace(f.firstName + " " + f.lastName) else given;
    if full == "" && |f.emails| > 0 then f.emails[0] else full
  }

  // ---- Content lines of a contact ----------------------------------------------------------------

  function Prefixed(prefix: string, values: seq<string>): seq<string> {
    seq(|values|, i requires 0 <= i < |values| => prefix + EscapeVCard(values[i]))
  }

  function JoinedLabels(labels: seq<string>): string {
    if |labels| == 0 then ""
    else if |labels| == 1 then EscapeVCard(labels[0])
    else JoinedLabels(labels[..|labels| - 1]) + "," + EscapeVCard(labels[|labels| - 1])
  }

  function NameLine(f: Fields): string {
    "N:" + EscapeVCard(f.lastName) + ";" + EscapeVCard(f.firstName) + ";;;"
  }

  function OrgLines(f: Fields): seq<string> {
    if f.company != "" || f.jobTitle != "" then ["ORG:" + EscapeVCard(f.company), "TITLE:" + EscapeVCard(f.jobTitle)]
    else []
  }

  function LabelLines(f: Fields): seq<string> {
    if |f.labels| > 0 then ["CATEGORIES:" + JoinedLabels(f.labels)] else []
  }

  function NoteLines(f: Fields): seq<string> {
    if f.notes != "" then ["NOTE:" + EscapeVCardNote(f.notes)] else []
  }

  function CardLines(f: Fields, dn: string): seq<string> {
    ["BEGIN:VCARD", "VERSION:3.0", "FN:" + EscapeVCard(dn), NameLine(f)]
    + OrgLines(f) + Prefixed("EMAIL" + ";" + "TYPE=INTERNET" + ":", f.emails) + Prefixed("TEL:", f.phones)
    + LabelLines(f) + NoteLines(f) + ["END:VCARD"]
  }

  function AllLines(contacts: seq<Fields>, names: seq<string>): seq<string> {
    if |contacts| == 0 then []
    else
      var n := |contacts| - 1;
      AllLines(contacts[..n], names) + CardLines(contacts[n], PrintedName(contacts[n], names, n))
  }

  /** Lines, each ended by end. */
  function Ended(lines: seq<string>, end: string): string {
    if |lines| == 0 then "" else Ended(lines[..|lines| - 1], end) + lines[|lines| - 1] + end
  }

  function Serialized(contacts: seq<Fields>, names: seq<string>): string {
    Ended(AllLines(contacts, names), "\r\n")
  }

  lemma {:induction false} EndedAppend(a: seq<string>, b: seq<string>, end: string)
    ensures Ended(a + b, end) == Ended(a, end) + Ended(b, end)
  {
    if |b| == 0 {
      assert a + b == a;
    } else {
      EndedAppend(a, b[..|b| - 1], end);
      assert (a + b)[..|a + b| - 1] == a + b[..|b| - 1];
    }
  }

  lemma EndedOne(line: string, end: string)
    ensures Ended([line], end) == line + end
  {
    assert [line][..0] == [];
    assert Ended([], end) == "";
  }

  /** One more line at the end of what is written. */
  lemma LineWritten(base: string, lines: seq<string>, line: string, end: string)
    ensures base + Ended(lines + [line], end) == base + Ended(lines, end) + line + end
  {
    EndedAppend(lines, [line], end);
    EndedOne(line, end);
  }

  method WriteLine(sb: string, line: string, ghost base: string, ghost lines: seq<string>) returns (r: string)
    requires sb == base + Ended(lines, "\r\n")
    ensures r == base + Ended(lines + [line], "\r\n")
  {
    LineWritten(base, lines, line, "\r\n");
    r := sb + line + "\r\n";
  }

  method WriteValues(sb: string, prefix: string, values: seq<string>, ghost base: string, ghost lines: seq<string>)
    returns (r: string)
    requires sb == base + Ended(lines, "\r\n")
    ensures r == base + Ended(lines + Prefixed(prefix, values), "\r\n")
  {
    r := sb;
    assert lines + Prefixed(prefix, values[..0]) == lines;
    for i := 0 to |values|
      invariant r == base + Ended(lines + Prefixed(prefix, values[..i]), "\r\n")
    {
      assert lines + Prefixed(prefix, values[..i + 1]) ==
             lines + Prefixed(prefix, values[..i]) + [prefix + EscapeVCard(values[i])];
      r := WriteLine(r, prefix + EscapeVCard(values[i]), base, lines + Prefixed(prefix, values[..i]));
    }
    assert values[..|values|] == values;
  }

  method WriteLabels(labels: seq<string>) returns (r: string)
    ensures r == JoinedLabels(labels)
  {
    r := "";
    for j := 0 to |labels|
      invariant r == JoinedLabels(labels[..j])
    {
      assert labels[..j + 1][..j] == labels[..j];
      if j > 0 {
        r := r + ",";
      }
      r := r + EscapeVCard(labels[j]);
    }
    assert labels[..|labels|] == labels;
  }

  method WriteCard(sb: string, f: Fields, dn: string) returns (r: string)
    ensures r == sb + Ended(CardLines(f, dn), "\r\n")
  {
    hide EscapeVCard, EscapeVCardNote, Ended, JoinedLabels, Prefixed, NameLine;
    assert Ended([], "\r\n") == "" by { EndedNone("\r\n"); }
    ghost var lines: seq<string> := ["BEGIN:VCARD", "VERSION:3.0", "FN:" + EscapeVCard(dn), NameLine(f)];
    r := WriteLine(sb, "BEGIN:VCARD", sb, []);
    r := WriteLine(r, "VERSION:3.0", sb, [] + ["BEGIN:VCARD"]);
    r := WriteLine(r, "FN:" + EscapeVCard(dn), sb, [] + ["BEGIN:VCARD"] + ["VERSION:3.0"]);
    r := WriteLine(r, NameLine(f), sb, [] + ["BEGIN:VCARD"] + ["VERSION:3.0"] + ["FN:" + EscapeVCard(dn)]);
    assert [] + ["BEGIN:VCARD"] + ["VERSION:3.0"] + ["FN:" + EscapeVCard(dn)] + [NameLine(f)] == lines;
    if f.company != "" || f.jobTitle != "" {
      r := WriteLine(r, "ORG:" + EscapeVCard(f.company), sb, lines);
      r := WriteLine(r, "TITLE:" + EscapeVCard(f.jobTitle), sb, lines + ["ORG:" + EscapeVCard(f.company)]);
      assert lines + ["ORG:" + EscapeVCard(f.company)] + ["TITLE:" + EscapeVCard(f.jobTitle)] == lines + OrgLines(f);
    }
    assert OrgLines(f) == [] ==> lines + OrgLines(f) == lines;
    lines := lines + OrgLines(f);
    r := WriteValues(r, "EMAIL" + ";" + "TYPE=INTERNET" + ":", f.emails, sb, lines);
    lines := lines + Prefixed("EMAIL" + ";" + "TYPE=INTERNET" + ":", f.emails);
    r := WriteValues(r, "TEL:", f.phones, sb, lines);
    lines := lines + Prefixed("TEL:", f.phones);
    if |f.labels| > 0 {
      var joined := WriteLabels(f.labels);
      r := WriteLine(r, "CATEGORIES:" + joined, sb, lines);
    }
    assert LabelLines(f) == [] ==> lines + LabelLines(f) == lines;
    lines := lines + LabelLines(f);
    if f.notes != "" {
      r := WriteLine(r, "NOTE:" + EscapeVCardNote(f.notes), sb, lines);
    }
    assert NoteLines(f) == [] ==> lines + NoteLines(f) == lines;
    lines := lines + NoteLines(f);
    r := WriteLine(r, "END:VCARD", sb, lines);
  }

  lemma EndedNone(end: string)
    ensures Ended([], end) == ""
  {
  }

  method SerializeVCards(contacts: seq<Fields>, names: seq<string>) returns (sb: string)
    ensures sb == Serialized(contacts, names)
  {
    hide CardLines;
    sb := "";
    for i := 0 to |contacts|
      invariant sb == Ended(AllLines(contacts[..i], names), "\r\n")
    {
      assert contacts[..i + 1][..i] == contacts[..i];
      var f := contacts[i];
      var dn := f.displayName;
      if dn == "" && i < |names| {
        dn := names[i];
      }
      if dn == "" {
        dn := TrimSpace(f.firstName + " " + f.lastName);
      }
      if dn == "" && |f.emails| > 0 {
        dn := f.emails[0];
      }
      EndedAppend(AllLines(contacts[..i], names), CardLines(f, dn), "\r\n");
      sb := WriteCard(sb, f, dn);
    }
    assert contacts[..|contacts|] == contacts;
  }
}

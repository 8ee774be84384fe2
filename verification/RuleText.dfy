/**
 Reading recurrence rules (internal/calendar/recurrence.go, parseRecurrence), and writing them in the
 form that file documents. time.Parse is a parameter.
 */
module RuleText {
  import opened Wrappers
  import opened Text
  import opened Civil
  import opened Recurrence

  /** time.Parse(time.RFC3339, …); None for an error. */
  type TimeParser = string -> Option<Instant>

  datatype Key = FREQ | INTERVAL | BYDAY | UNTIL | COUNT | Unknown

  function KeyOf(text: string): Key {
    if text == "FREQ" then FREQ else if text == "INTERVAL" then INTERVAL else if text == "BYDAY" then BYDAY
    else if text == "UNTIL" then UNTIL else if text == "COUNT" then COUNT else Unknown
  }

  datatype Setting = Setting(key: Key, value: string)

  /** A part of the rule; None when it is blank or has no equals sign. */
  function ReadPart(part: string): Option<Setting> {
    var p := TrimSpace(part);
    if '=' !in p then None
    else Some(Setting(KeyOf(ToUpper(TrimSpace(Before(p, '=')))), TrimSpace(Text.After(p, '='))))
  }

  /** strconv.Atoi on 64 bits; None for an error. */
  function Atoi(s: string): Option<int> {
    var neg := |s| > 0 && s[0] == '-';
    var digits := if |s| > 0 && (s[0] == '-' || s[0] == '+') then s[1..] else s;
    if digits == [] || exists i :: 0 <= i < |digits| && !IsDigit(digits[i]) then None
    else
      var n: int := if neg then 0 - Number(digits) else Number(digits);
      if -0x8000_0000_0000_0000 <= n < 0x8000_0000_0000_0000 then Some(n) else None
  }

  function Positive(s: string): Option<int> {
    var n := Atoi(s);
    if n.Some? && n.value > 0 then n else None
  }

  function DayOf(code: string): Option<int> {
    if code == "SU" then Some(0) else if code == "MO" then Some(1) else if code == "TU" then Some(2)
    else if code == "WE" then Some(3) else if code == "TH" then Some(4) else if code == "FR" then Some(5)
    else if code == "SA" then Some(6) else None
  }

  /** The days named in a list; anything else in it is skipped. */
  function DaysIn(codes: seq<string>): set<int> {
    if codes == [] then {}
    else
      var d := DayOf(ToUpper(TrimSpace(codes[|codes| - 1])));
      DaysIn(codes[..|codes| - 1]) + if d.Some? then {d.value} else {}
  }

  function FreqOf(text: string): Option<Freq> {
    if text == "DAILY" then Some(Daily) else if text == "WEEKLY" then Some(Weekly)
    else if text == "MONTHLY" then Some(Monthly) else if text == "YEARLY" then Some(Yearly)
    else if text == "WEEKDAY" then Some(Weekdays) else None
  }

  // ---- What a rule's text means ------------------------------------------------------------------

  /** The value the last part that gives one gives. */
  function Last<T>(parts: seq<string>, value: Setting -> Option<T>): Option<T> {
    if parts == [] then None
    else
      var s := ReadPart(parts[|parts| - 1]);
      if s.Some? && value(s.value).Some? then value(s.value) else Last(parts[..|parts| - 1], value)
  }

  function FreqSetting(): Setting -> Option<string> {
    (s: Setting) => if s.key == FREQ then Some(ToUpper(s.value)) else None
  }

  function IntervalSetting(): Setting -> Option<int> {
    (s: Setting) => if s.key == INTERVAL then Positive(s.value) else None
  }

  function DaysSetting(): Setting -> Option<set<int>> {
    (s: Setting) => if s.key == BYDAY then Some(DaysIn(Split(s.value, ','))) else None
  }

  function CountSetting(): Setting -> Option<int> { (s: Setting) => if s.key == COUNT then Positive(s.value) else None }

  function UntilSetting(parse: TimeParser): Setting -> Option<Instant> {
    (s: Setting) => if s.key == UNTIL then parse(s.value) else None
  }

  function Or<T>(o: Option<T>, default: T): T { if o.Some? then o.value else default }

  /** Every field is set by the last part that gives it a valid value; the rule repeats when the last
      FREQ part names a frequency. */
  function RuleOf(parts: seq<string>, parse: TimeParser): Option<Rule> {
    var freq := FreqOf(Or(Last(parts, FreqSetting()), ""));
    var count := Or(Last(parts, CountSetting()), 0);
    if freq.None? || count < 0 then None
    else Some(Rule(freq.value, Or(Last(parts, IntervalSetting()), 1), Or(Last(parts, DaysSetting()), {}),
                   Last(parts, UntilSetting(parse)), count))
  }

  const RULE_PREFIX: string := "RRULE" + ":"

  function PartsOf(s: string): seq<string> {
    var t := TrimSpace(s);
    Split(if RULE_PREFIX <= t then t[|RULE_PREFIX|..] else t, ';')
  }

  /** The days of a BYDAY value, code by code. */
  method ParseDays(value: string) returns (days: set<int>)
    ensures days == DaysIn(Split(value, ','))
  {
    hide DayOf, ToUpper, TrimSpace, Split;
    var codes := Split(value, ',');
    days := {};
    for i := 0 to |codes|
      invariant days == DaysIn(codes[..i])
    {
      assert codes[..i + 1][..i] == codes[..i];
      var d := DayOf(ToUpper(TrimSpace(codes[i])));
      if d.Some? {
        days := days + {d.value};
      }
    }
    assert codes[..|codes|] == codes;
  }

  /** The loop over the parts, setting fields as it goes. */
  method ParseRecurrence(s: string, parse: TimeParser) returns (rule: Option<Rule>)
    ensures rule == if TrimSpace(s) == "" then None else RuleOf(PartsOf(s), parse)
    ensures rule.Some? ==> 1 <= rule.value.interval < 0x8000_0000_0000_0000
  {
    hide ReadPart, Positive, DaysIn, FreqOf, KeyOf, PartsOf;
    if TrimSpace(s) == "" { return None; }
    var parts := PartsOf(s);
    var freq, interval, byDay, until, count := "", 1, {}, None, 0;
    for i := 0 to |parts|
      invariant freq == Or(Last(parts[..i], FreqSetting()), "")
      invariant interval == Or(Last(parts[..i], IntervalSetting()), 1) && 1 <= interval < 0x8000_0000_0000_0000
      invariant byDay == Or(Last(parts[..i], DaysSetting()), {})
      invariant until == Last(parts[..i], UntilSetting(parse))
      invariant count == Or(Last(parts[..i], CountSetting()), 0) && count >= 0
    {
      assert parts[..i + 1][..i] == parts[..i];
      var part := ReadPart(parts[i]);
      if part.None? { continue; }
      var key, val := part.value.key, part.value.value;
      if key == FREQ {
        freq := ToUpper(val);
      } else if key == INTERVAL {
        PositiveIsPositive(val);
        var n := Positive(val);
        if n.Some? { interval := n.value; }
      } else if key == BYDAY {
        byDay := ParseDays(val);
      } else if key == UNTIL {
        var t := parse(val);
        if t.Some? { until := t; }
      } else if key == COUNT {
        PositiveIsPositive(val);
        var n := Positive(val);
        if n.Some? { count := n.value; }
      }
    }
    assert parts[..|parts|] == parts;
    var f := FreqOf(freq);
    if f.None? { return None; }
    rule := Some(Rule(f.value, interval, byDay, until, count));
  }

  lemma PositiveIsPositive(s: string)
    ensures Positive(s).Some? ==> 0 < Positive(s).value < 0x8000_0000_0000_0000
  {
  }

  // ---- Writing a rule ----------------------------------------------------------------------------

  function KeyText(k: Key): string
    requires !k.Unknown?
  {
    match k
    case FREQ => "FREQ"
    case INTERVAL => "INTERVAL"
    case BYDAY => "BYDAY"
    case UNTIL => "UNTIL"
    case COUNT => "COUNT"
  }

  function FreqText(f: Freq): string {
    match f
    case Daily => "DAILY"
    case Weekly => "WEEKLY"
    case Monthly => "MONTHLY"
    case Yearly => "YEARLY"
    case Weekdays => "WEEKDAY"
  }

  function DayText(d: int): string
    requires 0 <= d < 7
  {
    if d == 0 then "SU" else if d == 1 then "MO" else if d == 2 then "TU" else if d == 3 then "WE"
    else if d == 4 then "TH" else if d == 5 then "FR" else "SA"
  }

  /** The codes of the days below n, in order. */
  function Codes(days: set<int>, n: nat): seq<string>
    requires n <= 7
  {
    if n == 0 then [] else Codes(days, n - 1) + if n - 1 in days then [DayText(n - 1)] else []
  }

  /** The settings that give a rule; until is the text of its end. */
  function SettingsOf(r: Rule, until: string): seq<Setting>
    requires r.interval >= 0 && forall d :: d in r.byDay ==> 0 <= d < 7
  {
    [Setting(FREQ, FreqText(r.freq)), Setting(INTERVAL, Decimal(r.interval))]
    + (if r.byDay == {} then [] else [Setting(BYDAY, DayList(r.byDay))])
    + (if r.until.None? then [] else [Setting(UNTIL, until)])
    + (if r.count == 0 then [] else [Setting(COUNT, Decimal(r.count))])
  }

  function DayList(days: set<int>): string
    requires days != {} && forall d :: d in days ==> 0 <= d < 7
  {
    CodesNotEmpty(days);
    Join(Codes(days, 7), ',')
  }

  lemma CodesNotEmpty(days: set<int>)
    requires forall d :: d in days ==> 0 <= d < 7
    ensures Codes(days, 7) == [] ==> days == {}
  {
    forall d | d in days
      ensures |Codes(days, 7)| > 0
    {
      SomeCodes(days, 7, d);
    }
  }

  lemma {:induction false} SomeCodes(days: set<int>, n: nat, d: int)
    requires n <= 7 && d in days && 0 <= d < n
    ensures |Codes(days, n)| > 0
  {
    hide DayText;
    if d < n - 1 {
      SomeCodes(days, n - 1, d);
    }
  }

  function PartText(s: Setting): string
    requires !s.key.Unknown?
  {
    KeyText(s.key) + ['='] + s.value
  }

  function PartTexts(settings: seq<Setting>): seq<string>
    requires forall s :: s in settings ==> !s.key.Unknown?
  {
    seq(|settings|, i requires 0 <= i < |settings| => PartText(settings[i]))
  }

  function Written(r: Rule, until: string): string
    requires r.interval >= 0 && forall d :: d in r.byDay ==> 0 <= d < 7
  {
    Join(PartTexts(SettingsOf(r, until)), ';')
  }

  // ---- It reads back -----------------------------------------------------------------------------

  lemma UpperStays(s: string)
    requires forall i :: 0 <= i < |s| ==> !('a' <= s[i] <= 'z')
    ensures ToUpper(s) == s
  {
  }

  /** A value that can stand in a part. */
  predicate Plain(v: string) { |v| > 0 && Trimmed(v) && ';' !in v }

  lemma KeyReads(k: Key)
    requires !k.Unknown?
    ensures KeyOf(ToUpper(TrimSpace(KeyText(k)))) == k
    ensures '=' !in KeyText(k) && ';' !in KeyText(k) && |KeyText(k)| > 0
            && !IsSpace(KeyText(k)[0]) && KeyText(k)[0] != 'R'
  {
    TrimSpaceTrims(KeyText(k));
    UpperStays(KeyText(k));
  }

  lemma PartReads(s: Setting)
    requires !s.key.Unknown? && Plain(s.value)
    ensures ReadPart(PartText(s)) == Some(s) && Plain(PartText(s)) && PartText(s)[0] != 'R'
  {
    hide KeyOf, KeyText, TrimLeft, TrimRight, TrimSpace, IsSpace;
    KeyReads(s.key);
    var p := PartText(s);
    assert p[0] == KeyText(s.key)[0] && p[|p| - 1] == s.value[|s.value| - 1];
    TrimSpaceTrims(p);
    TrimSpaceTrims(s.value);
    BeforeAppend(KeyText(s.key), s.value, '=');
    assert p[|KeyText(s.key)|] == '=';
  }

  lemma {:induction false} JoinEnds(parts: seq<string>, sep: char)
    requires |parts| > 0 && forall p :: p in parts ==> Plain(p)
    ensures var t := Join(parts, sep);
            && |t| > 0 && |parts[0]| > 0 && t[0] == parts[0][0]
            && !IsSpace(t[0]) && !IsSpace(t[|t| - 1])
  {
    hide IsSpace;
    assert Plain(parts[0]) && Plain(parts[|parts| - 1]);
    if |parts| > 1 {
      JoinEnds(parts[..|parts| - 1], sep);
    }
  }

  /** The text of settings splits into their parts again. */
  lemma PartsReadBack(settings: seq<Setting>)
    requires |settings| > 0 && forall s :: s in settings ==> !s.key.Unknown? && Plain(s.value)
    ensures var text := Join(PartTexts(settings), ';');
            TrimSpace(text) != "" && PartsOf(text) == PartTexts(settings)
  {
    hide ReadPart, Plain, PartText, TrimLeft, TrimRight, TrimSpace, IsSpace;
    var parts := PartTexts(settings);
    forall p | p in parts
      ensures Plain(p) && ';' !in p && |p| > 0 && p[0] != 'R'
    {
      var i :| 0 <= i < |parts| && parts[i] == p;
      PartReads(settings[i]);
      PlainHasNoSemicolon(p);
    }
    var text := Join(parts, ';');
    JoinEnds(parts, ';');
    TrimSpaceTrims(text);
    SplitJoin(parts, ';');
    assert parts[0] in parts;
    assert !(RULE_PREFIX <= text) by { assert RULE_PREFIX[0] == 'R'; }
  }

  lemma PlainHasNoSemicolon(p: string)
    requires Plain(p)
    ensures ';' !in p && |p| > 0
  {
  }

  /** The value the last setting that gives one gives. */
  function LastSet<T>(settings: seq<Setting>, value: Setting -> Option<T>): Option<T> {
    if settings == [] then None
    else if value(settings[|settings| - 1]).Some? then value(settings[|settings| - 1])
    else LastSet(settings[..|settings| - 1], value)
  }

  lemma {:induction false} LastReadsBack<T>(settings: seq<Setting>, value: Setting -> Option<T>)
    requires forall s :: s in settings ==> !s.key.Unknown? && Plain(s.value)
    ensures Last(PartTexts(settings), value) == LastSet(settings, value)
  {
    if settings != [] {
      hide ReadPart, Plain, PartText;
      var n := |settings| - 1;
      PartReads(settings[n]);
      LastReadsBack(settings[..n], value);
      assert PartTexts(settings)[..n] == PartTexts(settings[..n]);
    }
  }

  lemma {:induction false} LastSetAppend<T>(a: seq<Setting>, b: seq<Setting>, value: Setting -> Option<T>)
    ensures LastSet(a + b, value) == if LastSet(b, value).Some? then LastSet(b, value) else LastSet(a, value)
  {
    if b == [] {
      assert a + b == a;
    } else {
      assert (a + b)[..|a + b| - 1] == a + b[..|b| - 1];
      LastSetAppend(a, b[..|b| - 1], value);
    }
  }

  lemma LastSetOne<T>(s: Setting, value: Setting -> Option<T>)
    ensures LastSet([s], value) == value(s) && LastSet([], value) == None
  {
    assert [s][..0] == [];
  }

  lemma DecimalIsPlain(n: nat)
    ensures Plain(Decimal(n))
    ensures 0 < n < 0x8000_0000_0000_0000 ==> Positive(Decimal(n)) == Some(n)
  {
    DecimalReadsBack(n);
    assert IsDigit(Decimal(n)[0]) && IsDigit(Decimal(n)[|Decimal(n)| - 1]);
  }

  lemma FreqReads(f: Freq)
    ensures Plain(FreqText(f)) && FreqOf(ToUpper(FreqText(f))) == Some(f)
  {
    UpperStays(FreqText(f));
  }

  lemma DayReads(d: int)
    requires 0 <= d < 7
    ensures Plain(DayText(d)) && ',' !in DayText(d) && DayOf(ToUpper(TrimSpace(DayText(d)))) == Some(d)
  {
    TrimSpaceTrims(DayText(d));
    UpperStays(DayText(d));
  }

  lemma {:induction false} CodesReadBack(days: set<int>, n: nat)
    requires n <= 7
    ensures DaysIn(Codes(days, n)) == set d | d in days && 0 <= d < n
    ensures forall c :: c in Codes(days, n) ==> Plain(c) && ',' !in c
  {
    hide DayText, DayOf, ToUpper, TrimSpace, Plain;
    if n > 0 {
      CodesReadBack(days, n - 1);
      if n - 1 in days {
        DayReads(n - 1);
        var codes := Codes(days, n - 1);
        assert (codes + [DayText(n - 1)])[..|codes|] == codes;
        assert (set d | d in days && 0 <= d < n) == (set d | d in days && 0 <= d < n - 1) + {n - 1};
      } else {
        assert Codes(days, n) == Codes(days, n - 1);
        assert (set d | d in days && 0 <= d < n) == (set d | d in days && 0 <= d < n - 1);
      }
    }
  }

  lemma DayListReads(days: set<int>)
    requires days != {} && forall d :: d in days ==> 0 <= d < 7
    ensures Plain(DayList(days)) && DaysIn(Split(DayList(days), ',')) == days
  {
    hide DayText, DayOf, ToUpper, TrimSpace, IsSpace, Codes, DaysIn;
    CodesNotEmpty(days);
    CodesReadBack(days, 7);
    assert days == set d | d in days && 0 <= d < 7;
    var codes := Codes(days, 7);
    SplitJoin(codes, ',');
    JoinEnds(codes, ',');
    JoinHas(codes, ',', ';');
  }

  // ---- The round trip ----------------------------------------------------------------------------

  /** The rules the documented form can express: days of the week, 64-bit numbers, an end whose text
      reads as it. */
  predicate Expressible(r: Rule, until: string, parse: TimeParser) {
    && 0 < r.interval < 0x8000_0000_0000_0000 && r.count < 0x8000_0000_0000_0000
    && (forall d :: d in r.byDay ==> 0 <= d < 7)
    && (r.until.Some? ==> Plain(until) && parse(until) == r.until)
  }

  lemma SettingsArePlain(r: Rule, until: string, parse: TimeParser)
    requires Expressible(r, until, parse)
    ensures forall s :: s in SettingsOf(r, until) ==> !s.key.Unknown? && Plain(s.value)
  {
    hide Plain, DayList, FreqText, Decimal;
    FreqReads(r.freq);
    DecimalIsPlain(r.interval);
    DecimalIsPlain(r.count);
    if r.byDay != {} { DayListReads(r.byDay); }
  }

  /** What the settings give to one field. */
  lemma SettingsGive<T>(r: Rule, until: string, value: Setting -> Option<T>)
    requires r.interval >= 0 && forall d :: d in r.byDay ==> 0 <= d < 7
    ensures var of := (s: Setting, has: bool) => if has then value(s) else None;
            var count := of(Setting(COUNT, Decimal(r.count)), r.count != 0);
            var end := of(Setting(UNTIL, until), r.until.Some?);
            var days := if r.byDay != {} then value(Setting(BYDAY, DayList(r.byDay))) else None;
            var interval := value(Setting(INTERVAL, Decimal(r.interval)));
            LastSet(SettingsOf(r, until), value) ==
              if count.Some? then count else if end.Some? then end else if days.Some? then days
              else if interval.Some? then interval else value(Setting(FREQ, FreqText(r.freq)))
  {
    hide Decimal, DayList, FreqText, LastSet;
    var freq, interval := Setting(FREQ, FreqText(r.freq)), Setting(INTERVAL, Decimal(r.interval));
    var a := [freq, interval];
    var b := if r.byDay == {} then [] else [Setting(BYDAY, DayList(r.byDay))];
    var c := if r.until.None? then [] else [Setting(UNTIL, until)];
    var d := if r.count == 0 then [] else [Setting(COUNT, Decimal(r.count))];
    LastSetAppend(a + b + c, d, value);
    LastSetAppend(a + b, c, value);
    LastSetAppend(a, b, value);
    LastSetAppend([freq], [interval], value);
    assert [freq] + [interval] == a;
    LastSetOne(freq, value);
    LastSetOne(interval, value);
    if r.byDay != {} { LastSetOne(Setting(BYDAY, DayList(r.byDay)), value); }
    LastSetOne(Setting(UNTIL, until), value);
    LastSetOne(Setting(COUNT, Decimal(r.count)), value);
  }

  /** Every rule, written in the documented form, is read back as that rule. */
  lemma WrittenReadsBack(r: Rule, until: string, parse: TimeParser)
    requires Expressible(r, until, parse)
    ensures TrimSpace(Written(r, until)) != "" && RuleOf(PartsOf(Written(r, until)), parse) == Some(r)
  {
    hide TrimSpace, Split, ToUpper, Decimal, DayList, FreqText, FreqOf, Positive, DaysIn, Last,
      LastSet, SettingsOf, Plain, PartTexts;
    var settings := SettingsOf(r, until);
    SettingsArePlain(r, until, parse);
    assert |settings| > 0 by { SettingsSome(r, until); }
    PartsReadBack(settings);
    LastReadsBack(settings, FreqSetting());
    LastReadsBack(settings, IntervalSetting());
    LastReadsBack(settings, DaysSetting());
    LastReadsBack(settings, UntilSetting(parse));
    LastReadsBack(settings, CountSetting());
    SettingsGive(r, until, FreqSetting());
    SettingsGive(r, until, IntervalSetting());
    SettingsGive(r, until, DaysSetting());
    SettingsGive(r, until, UntilSetting(parse));
    SettingsGive(r, until, CountSetting());
    FreqReads(r.freq);
    DecimalIsPlain(r.interval);
    DecimalIsPlain(r.count);
    if r.byDay != {} { DayListReads(r.byDay); }
  }

  lemma SettingsSome(r: Rule, until: string)
    requires r.interval >= 0 && forall d :: d in r.byDay ==> 0 <= d < 7
    ensures |SettingsOf(r, until)| > 0
  {
  }
}

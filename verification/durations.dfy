/** Treatment duration labels ("10 minutes", "1 hour", "2 hours 15
    minutes", "Varies"): the label the treatment editor writes from its
    hour and minute fields, the editor's reading of a label back into those
    fields, and the appointment dialog's reading of a label as a number of
    minutes. */
module Durations {
  import opened Wrappers
  import opened Text

  // ---------------------------------------------------------------------
  // Reading a label as minutes

  /** The appointment dialog's `getDurationInMinutes` as written: a label
      mentioning "hour" is 60 times its leading integer, any other label is
      its leading integer; `None` is `NaN`. A label with both hours and
      minutes loses its minutes. */
  function CalendarMinutes(text: string): (r: Option<int>)
    ensures r.None? <==> ParseInt(text).None?
    ensures !Contains(text, "hour") ==> r == ParseInt(text)
  {
    var n := ParseInt(text);
    if Contains(text, "hour") then
      (if n.None? then None else Some(60 * n.value))
    else n
  }

  /** The minutes a label stands for, reading both parts of a compound
      label the way the treatment editor does; on labels without "hour" it
      agrees with the dialog's reading. */
  function LabelMinutes(text: string): (r: Option<int>)
    ensures !Contains(text, "hour") ==> r == CalendarMinutes(text)
    ensures r.None? <==> ParseInt(text).None?
  {
    var n := ParseInt(text);
    if Contains(text, "hour") then
      (if n.None? then None else Some(60 * n.value + EditMinutes(text)))
    else n
  }

  // ---------------------------------------------------------------------
  // The editor's reading of a label

  /** The digits the pattern `/(\d+) minutes/` captures: at the leftmost
      position where a run of digits is followed by " minutes". */
  function MinutesCapture(s: string): (r: Option<string>)
    ensures r.Some? ==> |r.value| > 0 && AllDigits(r.value) && Contains(s, r.value + " minutes")
    decreases |s|
  {
    if |s| == 0 then None
    else
      var d := LeadingDigits(s);
      if |d| > 0 && StartsWith(s[|d|..], " minutes") then
        assert s[..|d|] == d && s[|d|..][..8] == " minutes";
        assert s[..|d| + 8] == d + " minutes";
        ContainsAt(s, d + " minutes", 0);
        Some(d)
      else
        var r := MinutesCapture(s[1..]);
        if r.Some? then
          ContainsIff(s[1..], r.value + " minutes");
          var i :| OccursAt(s[1..], r.value + " minutes", i);
          assert s[1..][i..i + |r.value + " minutes"|] == s[i + 1..i + 1 + |r.value + " minutes"|];
          ContainsAt(s, r.value + " minutes", i + 1);
          r
        else r
  }

  /** The hours field the editor opens with: the label's leading integer
      when it mentions "hour", else 0. */
  function EditHours(text: string): (r: Option<int>)
    ensures !Contains(text, "hour") ==> r == Some(0)
    ensures Contains(text, "hour") ==> r == ParseInt(text)
  {
    if Contains(text, "hour") then ParseInt(text) else Some(0)
  }

  /** The minutes field the editor opens with: the number captured before
      " minutes", or 0. */
  function EditMinutes(text: string): (r: nat)
    ensures MinutesCapture(text).None? ==> r == 0
    ensures MinutesCapture(text).Some? ==> r == DigitsValue(MinutesCapture(text).value)
  {
    CaptureMentionsMinutes(text);
    if Contains(text, "minutes") then
      match MinutesCapture(text)
      case Some(d) =>
        ParseIntDigits(d);
        DigitsValue(d)
      case None => 0
    else 0
  }

  /** A captured number is always followed by "minutes", so the editor's
      `includes('minutes')` test never hides a capture. */
  lemma {:induction false} CaptureMentionsMinutes(text: string)
    ensures MinutesCapture(text).Some? ==> Contains(text, "minutes")
  {
    if MinutesCapture(text).Some? {
      var d := MinutesCapture(text).value;
      assert d + " minutes" == (d + " ") + "minutes";
      ContainsSuffix(text, d + " ", "minutes");
    }
  }

  /** `parseInt` of a non-empty digit string is its value. */
  lemma {:induction false} ParseIntDigits(d: string)
    requires |d| > 0 && AllDigits(d)
    ensures ParseInt(d) == Some(DigitsValue(d) as int)
  {
    assert IsDigit(d[0]);
    assert !IsSpace(d[0]);
    assert TrimStart(d) == d;
    assert Unsigned(d) == d;
    assert d + "" == d;
    LeadingDigitsOf(d, "");
    assert LeadingDigits(Unsigned(TrimStart(d))) == d;
  }

  // ---------------------------------------------------------------------
  // Writing a label

  /** The label the editor saves: "h hour" or "h hours", then one space and
      "m minutes"; "0 minutes" when neither count is positive. */
  function FormatDuration(h: int, m: int): (text: string)
    ensures |text| > 0
  {
    var hoursPart := if h > 0 then NatToString(h) + " hour" + (if h > 1 then "s" else "") else "";
    var minutesPart := if m > 0 then NatToString(m) + " minutes" else "";
    if h > 0 && m > 0 then hoursPart + " " + minutesPart
    else if h > 0 then hoursPart
    else if m > 0 then minutesPart
    else "0 minutes"
  }

  /** The hours field accepts the empty string or digits only. */
  predicate HoursFieldAccepts(v: string) {
    |v| == 0 || AllDigits(v)
  }

  /** The minutes field accepts the empty string or digits worth at most 59. */
  predicate MinutesFieldAccepts(v: string) {
    |v| == 0 || (AllDigits(v) && DigitsValue(v) <= 59)
  }

  /** `parseInt(field) || 0`, the count the editor formats. */
  function FieldCount(n: Option<int>): int {
    n.GetOr(0)
  }

  /** The label saved from the editor's two fields, given what `parseInt`
      reads in each. */
  function SubmitLabel(hours: Option<int>, minutes: Option<int>): (text: string)
    ensures |text| > 0
    ensures FieldCount(hours) <= 0 && FieldCount(minutes) <= 0 ==> text == "0 minutes"
  {
    FormatDuration(FieldCount(hours), FieldCount(minutes))
  }

  /** For counts the fields can hold (none negative), the saved label
      reopens in the editor with the same hours and minutes. */
  lemma {:induction false} SubmitLabelReopens(hours: Option<int>, minutes: Option<int>)
    requires FieldCount(hours) >= 0 && FieldCount(minutes) >= 0
    ensures EditHours(SubmitLabel(hours, minutes)) == Some(FieldCount(hours))
    ensures EditMinutes(SubmitLabel(hours, minutes)) == FieldCount(minutes)
  {
    SubmitReadBack(SubmitLabel(hours, minutes), FieldCount(hours), FieldCount(minutes));
  }

  /** For counts the fields can hold, the saved label reads as 60 times the
      hours plus the minutes. */
  lemma {:induction false} SubmitLabelMinutes(hours: Option<int>, minutes: Option<int>)
    requires FieldCount(hours) >= 0 && FieldCount(minutes) >= 0
    ensures LabelMinutes(SubmitLabel(hours, minutes)) == Some(60 * FieldCount(hours) + FieldCount(minutes))
  {
    LabelOfCounts(SubmitLabel(hours, minutes), FieldCount(hours), FieldCount(minutes));
  }

  lemma {:induction false} LabelOfCounts(text: string, h: int, m: int)
    requires h >= 0 && m >= 0 && text == FormatDuration(h, m)
    ensures LabelMinutes(text) == Some(60 * h + m)
  {
    LabelMinutesRoundTrip(h, m);
  }

  /** The label written for `h` hours and `m` minutes opens in the editor
      as those counts. */
  lemma {:induction false} SubmitReadBack(text: string, h: nat, m: nat)
    requires text == FormatDuration(h, m)
    ensures EditHours(text) == Some(h as int) && EditMinutes(text) == m
  {
    EditRoundTrip(h, m);
  }

  /** A field the editor accepts is read as a non-negative count. */
  lemma {:induction false} AcceptedFieldCount(v: string)
    requires HoursFieldAccepts(v)
    ensures FieldCount(ParseInt(v)) >= 0
    ensures MinutesFieldAccepts(v) ==> FieldCount(ParseInt(v)) <= 59
  {
    if |v| > 0 {
      ParseIntDigits(v);
    } else {
      assert TrimStart(v) == v;
    }
  }

  // ---------------------------------------------------------------------
  // Round trips

  lemma {:induction false} NoCharInDigits(d: string, c: char)
    requires AllDigits(d) && !IsDigit(c)
    ensures c !in d
  {
  }

  /** A label with positive hours mentions "hour"; its leading integer is
      the hours. */
  lemma {:induction false} HoursPart(h: int, rest: string)
    requires h > 0 && (|rest| == 0 || !IsDigit(rest[0]))
    ensures ParseInt(NatToString(h) + rest) == Some(h)
  {
    ParseIntOfNat(h, rest);
  }

  lemma {:induction false} CaptureSkipsText(x: string, r: string)
    requires forall i :: 0 <= i < |x| ==> !IsDigit(x[i])
    ensures MinutesCapture(x + r) == MinutesCapture(r)
    decreases |x|
  {
    if |x| > 0 {
      assert (x + r)[0] == x[0];
      assert LeadingDigits(x + r) == "";
      assert (x + r)[1..] == x[1..] + r;
      CaptureSkipsText(x[1..], r);
    } else {
      assert x + r == r;
    }
  }

  lemma {:induction false} CaptureSkipsRun(d: string, rest: string)
    requires AllDigits(d)
    requires |rest| > 0 && !IsDigit(rest[0]) && !StartsWith(rest, " minutes")
    ensures MinutesCapture(d + rest) == MinutesCapture(rest)
    decreases |d|
  {
    if |d| > 0 {
      LeadingDigitsOf(d, rest);
      assert (d + rest)[|d|..] == rest;
      assert (d + rest)[1..] == d[1..] + rest;
      CaptureSkipsRun(d[1..], rest);
    } else {
      assert d + rest == rest;
    }
  }

  lemma {:induction false} CaptureHere(d: string)
    requires |d| > 0 && AllDigits(d)
    ensures MinutesCapture(d + " minutes") == Some(d)
  {
    LeadingDigitsOf(d, " minutes");
    DropPrefix(d, " minutes");
    CaptureAt(d + " minutes", d);
  }

  /** The capture is made at the start when the leading digits are
      followed by " minutes". */
  lemma {:induction false} CaptureAt(s: string, d: string)
    requires LeadingDigits(s) == d && |d| > 0 && StartsWith(s[|d|..], " minutes")
    ensures MinutesCapture(s) == Some(d)
  {
  }

  lemma {:induction false} DropPrefix(a: string, b: string)
    ensures (a + b)[|a|..] == b
  {
  }

  /** The " hour"/" hours" text between the two numbers of a label. */
  function HourWord(h: int): string {
    " hour" + (if h > 1 then "s" else "")
  }

  lemma {:induction false} HourWordFacts(h: int)
    ensures forall i :: 0 <= i < |HourWord(h)| ==> !IsDigit(HourWord(h)[i])
    ensures 'm' !in HourWord(h) && !StartsWith(HourWord(h) + " ", " minutes")
    ensures Contains(HourWord(h), "hour")
  {
    assert HourWord(h) == " " + "hour" + HourWord(h)[5..];
    ContainsInfix(" ", "hour", HourWord(h)[5..]);
    assert (HourWord(h) + " ")[1] == 'h';
  }

  /** Opening a saved label in the editor recovers the hour and minute
      counts it was written from. */
  lemma {:induction false} EditRoundTrip(h: nat, m: nat)
    ensures EditHours(FormatDuration(h, m)) == Some(h as int)
    ensures EditMinutes(FormatDuration(h, m)) == m
    ensures Contains(FormatDuration(h, m), "hour") <==> h > 0
  {
    if h > 0 && m > 0 {
      RoundTripBoth(h, m);
      HoursMeanHour(FormatDuration(h, m), h);
    } else if h > 0 {
      assert m == 0;
      RoundTripHoursOnly(h);
      HoursMeanHour(FormatDuration(h, m), h);
    } else {
      assert h == 0;
      RoundTripMinutesOnly(m);
    }
  }

  /** The editor opens with positive hours only on a label mentioning
      "hour". */
  lemma {:induction false} HoursMeanHour(text: string, h: int)
    requires h > 0 && EditHours(text) == Some(h)
    ensures Contains(text, "hour")
  {
    EditHoursDef(text);
  }

  lemma {:induction false} RoundTripBoth(h: nat, m: nat)
    requires h > 0 && m > 0
    ensures EditHours(FormatDuration(h, m)) == Some(h as int)
    ensures EditMinutes(FormatDuration(h, m)) == m
  {
    BothText(h, m);
    HoursReadBack(h, " " + NatToString(m) + " minutes");
    MinutesReadBack(h, m);
  }

  lemma {:induction false} BothText(h: nat, m: nat)
    requires h > 0 && m > 0
    ensures FormatDuration(h, m) == NatToString(h) + HourWord(h) + (" " + NatToString(m) + " minutes")
  {
  }

  lemma {:induction false} RoundTripHoursOnly(h: nat)
    requires h > 0
    ensures EditHours(FormatDuration(h, 0)) == Some(h as int)
    ensures EditMinutes(FormatDuration(h, 0)) == 0
  {
    var text := FormatDuration(h, 0);
    var hs := NatToString(h);
    assert text == hs + HourWord(h) + "";
    HoursReadBack(h, "");
    HourWordFacts(h);
    NoCharInDigits(hs, 'm');
    assert 'm' !in text;
    ContainsHead(text, "minutes");
  }

  /** The leading number of a label with an hour part is read as the hours. */
  lemma {:induction false} HoursReadBack(h: nat, tail: string)
    requires h > 0
    ensures EditHours(NatToString(h) + HourWord(h) + tail) == Some(h as int)
  {
    HoursReadDigits(NatToString(h), h, tail);
  }

  lemma {:induction false} HoursReadDigits(hs: string, h: int, tail: string)
    requires |hs| > 0 && AllDigits(hs)
    ensures EditHours(hs + HourWord(h) + tail) == Some(DigitsValue(hs))
  {
    HoursLeading(hs, h, tail);
    HourInLabel(hs, h, tail);
    EditHoursDef(hs + HourWord(h) + tail);
  }

  lemma {:induction false} HoursLeading(hs: string, h: int, tail: string)
    requires |hs| > 0 && AllDigits(hs)
    ensures ParseInt(hs + HourWord(h) + tail) == Some(DigitsValue(hs))
  {
    var rest := HourWord(h) + tail;
    Regroup(hs, HourWord(h), tail);
    assert rest[0] == ' ';
    ParseIntOfDigits(hs, rest);
  }

  lemma {:induction false} HourInLabel(hs: string, h: int, tail: string)
    ensures Contains(hs + HourWord(h) + tail, "hour")
  {
    var plural := if h > 1 then "s" else "";
    assert HourWord(h) == " " + "hour" + plural;
    HourInside(hs, plural, tail);
  }

  lemma {:induction false} Regroup(a: string, b: string, c: string)
    ensures a + b + c == a + (b + c)
  {
  }

  lemma {:induction false} HourInside(hs: string, plural: string, tail: string)
    ensures Contains(hs + (" " + "hour" + plural) + tail, "hour")
  {
    assert hs + (" " + "hour" + plural) + tail == (hs + " ") + "hour" + (plural + tail);
    ContainsInfix(hs + " ", "hour", plural + tail);
  }

  /** The number before " minutes" in a compound label is read as the
      minutes. */
  lemma {:induction false} MinutesReadBack(h: nat, m: nat)
    requires h > 0 && m > 0
    ensures EditMinutes(NatToString(h) + HourWord(h) + (" " + NatToString(m) + " minutes")) == m
  {
    var hs := NatToString(h);
    var ms := NatToString(m);
    var gap := HourWord(h) + " ";
    var text := hs + HourWord(h) + (" " + ms + " minutes");
    assert text == hs + (gap + (ms + " minutes"));
    CaptureCompound(hs, gap, ms, h);
  }

  lemma {:induction false} CaptureCompound(hs: string, gap: string, ms: string, h: int)
    requires AllDigits(hs) && |ms| > 0 && AllDigits(ms) && gap == HourWord(h) + " "
    ensures MinutesCapture(hs + (gap + (ms + " minutes"))) == Some(ms)
  {
    HourWordFacts(h);
    assert forall i :: 0 <= i < |gap| ==> !IsDigit(gap[i]);
    assert (gap + (ms + " minutes"))[1] == 'h';
    CaptureSkipsRun(hs, gap + (ms + " minutes"));
    CaptureSkipsText(gap, ms + " minutes");
    CaptureHere(ms);
  }

  lemma {:induction false} RoundTripMinutesOnly(m: nat)
    ensures !Contains(FormatDuration(0, m), "hour")
    ensures EditHours(FormatDuration(0, m)) == Some(0)
    ensures EditMinutes(FormatDuration(0, m)) == m
  {
    var text := FormatDuration(0, m);
    var ms := NatToString(m);
    assert text == ms + " minutes";
    NoCharInDigits(ms, 'h');
    assert 'h' !in text;
    ContainsHead(text, "hour");
    CaptureHere(ms);
  }

  lemma {:induction false} DigitsOfNat(m: nat)
    ensures DigitsValue(NatToString(m)) == m
  {
  }

  /** Compound labels read back as hours and minutes: the corrected reading
      gives every saved label its full length in minutes. */
  lemma {:induction false} LabelMinutesRoundTrip(h: nat, m: nat)
    ensures LabelMinutes(FormatDuration(h, m)) == Some(60 * h + m)
  {
    var text := FormatDuration(h, m);
    EditRoundTrip(h, m);
    if h == 0 {
      RoundTripMinutesOnly(m);
      MinutesOnlyValue(m);
    } else {
      LabelMinutesOfParts(text, h, m);
    }
  }

  lemma {:induction false} LabelMinutesOfParts(text: string, h: int, m: nat)
    requires Contains(text, "hour") && EditHours(text) == Some(h) && EditMinutes(text) == m
    ensures LabelMinutes(text) == Some(60 * h + m)
  {
    EditHoursDef(text);
    LabelMinutesDef(text);
    HourCase(Contains(text, "hour"), ParseInt(text), EditHours(text), h, EditMinutes(text), LabelMinutes(text));
  }

  // The three readings unfolded once, and the choice they make on a label
  // with an hour part, stated over plain values: these keep the proofs
  // above from unfolding the readings inside larger contexts.

  lemma {:induction false} CalendarMinutesDef(text: string)
    ensures CalendarMinutes(text) ==
      if Contains(text, "hour") then (if ParseInt(text).None? then None else Some(60 * ParseInt(text).value))
      else ParseInt(text)
  {
  }

  lemma {:induction false} LabelMinutesDef(text: string)
    ensures LabelMinutes(text) ==
      if Contains(text, "hour") then (if ParseInt(text).None? then None else Some(60 * ParseInt(text).value + EditMinutes(text)))
      else ParseInt(text)
  {
  }

  lemma {:induction false} EditHoursDef(text: string)
    ensures EditHours(text) == if Contains(text, "hour") then ParseInt(text) else Some(0)
  {
  }

  lemma {:induction false} HourCase(hour: bool, n: Option<int>, hours: Option<int>, h: int, e: int, r: Option<int>)
    requires hours == (if hour then n else Some(0)) && hours == Some(h)
    requires r == if hour then (if n.None? then None else Some(60 * n.value + e)) else n
    requires hour
    ensures r == Some(60 * h + e)
  {
  }

  lemma {:induction false} MinutesOnlyValue(m: nat)
    ensures ParseInt(FormatDuration(0, m)) == Some(m as int)
  {
    assert FormatDuration(0, m) == NatToString(m) + " minutes";
    ParseIntOfNat(m, " minutes");
  }

  /** Saving the editor unchanged after opening a saved label writes the
      same label again. */
  lemma {:induction false} EditSaveIdempotent(h: nat, m: nat)
    ensures SubmitLabel(EditHours(FormatDuration(h, m)), Some(EditMinutes(FormatDuration(h, m))))
         == FormatDuration(h, m)
  {
    EditRoundTrip(h, m);
  }

  // ---------------------------------------------------------------------
  // Concrete labels

  lemma {:induction false} NatStrings()
    ensures NatToString(1) == "1" && NatToString(2) == "2"
    ensures NatToString(30) == "30"
  {
    assert NatToString(3) == "3";
    assert NatToString(30) == NatToString(3) + [DigitChar(0)];
  }

  /** The dialog reads the editor's own label "1 hour 30 minutes" as 60
      minutes; the corrected reading gives 90. */
  lemma {:induction false} CompoundLabelLosesMinutes()
    ensures FormatDuration(1, 30) == "1 hour 30 minutes"
    ensures CalendarMinutes(FormatDuration(1, 30)) == Some(60)
    ensures LabelMinutes(FormatDuration(1, 30)) == Some(90)
  {
    CompoundLabelText();
    var t := FormatDuration(1, 30);
    EditRoundTrip(1, 30);
    CalendarMinutesOfHours(t, 1);
    LabelMinutesRoundTrip(1, 30);
  }

  lemma {:induction false} CompoundLabelText()
    ensures FormatDuration(1, 30) == "1 hour 30 minutes"
  {
    NatStrings();
  }

  lemma {:induction false} CalendarMinutesOfHours(text: string, h: int)
    requires Contains(text, "hour") && EditHours(text) == Some(h)
    ensures CalendarMinutes(text) == Some(60 * h)
  {
  }

  /** Opening a range label such as "20-30 minutes" in the editor and saving
      it unchanged rewrites it as its upper bound. */
  lemma {:induction false} RangeLabelResaved()
    ensures EditHours("20-30 minutes") == Some(0)
    ensures EditMinutes("20-30 minutes") == 30
    ensures SubmitLabel(Some(0), Some(30)) == "30 minutes"
  {
    RangeLabelHours();
    RangeLabelMinutes();
    ResavedText();
  }

  lemma {:induction false} ResavedText()
    ensures SubmitLabel(Some(0), Some(30)) == "30 minutes"
  {
    NatStrings();
    assert FieldCount(Some(0)) == 0 && FieldCount(Some(30)) == 30;
    assert FormatDuration(0, 30) == NatToString(30) + " minutes";
  }

  lemma {:induction false} RangeLabelHours()
    ensures EditHours("20-30 minutes") == Some(0)
  {
    var t, w := "20-30 minutes", "hour";
    assert 'h' !in t && w[0] == 'h';
    ContainsHead(t, w);
  }

  lemma {:induction false} RangeLabelMinutes()
    ensures EditMinutes("20-30 minutes") == 30
  {
    RangeLabelSplit();
    RangeLabelDigits();
    RangeCapture("20", "30");
  }

  lemma {:induction false} RangeLabelSplit()
    ensures "20" + ("-" + ("30" + " minutes")) == "20-30 minutes"
  {
  }

  lemma {:induction false} RangeLabelDigits()
    ensures AllDigits("20") && AllDigits("30") && DigitsValue("30") == 30
  {
    assert "30"[..1] == "3";
  }

  /** A range label "a-b minutes" opens in the editor with `b` minutes. */
  lemma {:induction false} RangeCapture(a: string, b: string)
    requires |a| > 0 && AllDigits(a) && |b| > 0 && AllDigits(b)
    ensures EditMinutes(a + ("-" + (b + " minutes"))) == DigitsValue(b)
  {
    var rest := "-" + (b + " minutes");
    assert rest[0] == '-' && !IsDigit(rest[0]);
    assert !StartsWith(rest, " minutes") by {
      assert rest[0] != " minutes"[0];
    }
    CaptureSkipsRun(a, rest);
    assert forall i :: 0 <= i < |"-"| ==> !IsDigit("-"[i]);
    CaptureSkipsText("-", b + " minutes");
    CaptureHere(b);
    assert MinutesCapture(a + rest) == Some(b);
  }

  // ---------------------------------------------------------------------
  // What the appointment dialog makes of labels

  /** Both readings of a label the editor wrote from `h` hours and `m`
      minutes. */
  lemma {:induction false} EditorLabelReadings(text: string, h: nat, m: nat)
    requires text == FormatDuration(h, m)
    ensures LabelMinutes(text) == Some(60 * h + m)
    ensures CalendarMinutes(text) == Some(if h > 0 then 60 * h else m)
  {
    LabelMinutesRoundTrip(h, m);
    CalendarReadsLabel(h, m);
  }

  /** The dialog reads an editor label as its hours alone when it has any,
      and as its minutes otherwise. */
  lemma {:induction false} CalendarReadsLabel(h: nat, m: nat)
    ensures CalendarMinutes(FormatDuration(h, m)) == Some(if h > 0 then 60 * h else m)
  {
    var text := FormatDuration(h, m);
    EditRoundTrip(h, m);
    if h > 0 {
      CalendarMinutesOfHours(text, h);
    } else {
      MinutesOnlyValue(m);
    }
  }

  /** A range label such as "20-30 minutes" is read as its lower bound. */
  lemma {:induction false} CalendarReadsRange(a: nat, b: nat)
    ensures CalendarMinutes(NatToString(a) + "-" + NatToString(b) + " minutes") == Some(a as int)
  {
    RangeReadDigits(NatToString(a), NatToString(b));
  }

  /** The dialog reads "a-b minutes", for digit runs `a` and `b`, as `a`. */
  lemma {:induction false} RangeReadDigits(da: string, db: string)
    requires |da| > 0 && AllDigits(da) && AllDigits(db)
    ensures CalendarMinutes(da + "-" + db + " minutes") == Some(DigitsValue(da))
  {
    RangeLeading(da, db);
    NoHourInRange(da, db);
    CalendarMinutesDef(da + "-" + db + " minutes");
  }

  lemma {:induction false} RangeLeading(da: string, db: string)
    requires |da| > 0 && AllDigits(da)
    ensures ParseInt(da + "-" + db + " minutes") == Some(DigitsValue(da))
  {
    var rest := "-" + db + " minutes";
    Regroup4(da, "-", db, " minutes");
    assert rest[0] == '-';
    ParseIntOfDigits(da, rest);
  }

  lemma {:induction false} NoHourInRange(da: string, db: string)
    requires AllDigits(da) && AllDigits(db)
    ensures !Contains(da + "-" + db + " minutes", "hour")
  {
    NoCharInDigits(da, 'h');
    NoCharInDigits(db, 'h');
    NotInJoin(da, "-", 'h');
    NotInJoin(da + "-", db, 'h');
    NotInJoin(da + "-" + db, " minutes", 'h');
    ContainsHead(da + "-" + db + " minutes", "hour");
  }

  lemma {:induction false} Regroup4(a: string, b: string, c: string, d: string)
    ensures a + b + c + d == a + (b + c + d)
  {
  }

  lemma {:induction false} VariesIsNaN()
    ensures ParseInt("Varies") == None
  {
    assert !IsSpace('V');
    assert TrimStart("Varies") == "Varies";
  }
}

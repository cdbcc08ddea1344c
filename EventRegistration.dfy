/** The three-step event registration wizard: the session state its handlers
    update, the date stripping done for the Google Calendar link, and the
    "Not provided" fallback of the step-3 summary. */
module EventRegistration {
  import opened Forms

  /** The record the wizard starts from: seven empty text fields and the
      unticked terms checkbox. */
  const InitialData: map<string, FieldValue> := map[
    "name" := Text(""), "email" := Text(""), "phone" := Text(""),
    "company" := Text(""), "experience" := Text(""), "expectations" := Text(""),
    "dietaryRestrictions" := Text(""), "agreeToTerms" := Flag(false)]

  const TextFields: set<string> := {"name", "email", "phone", "company",
    "experience", "expectations", "dietaryRestrictions"}

  /** The wizard's state. `pending` counts the completion callbacks that a
      final-step submit has scheduled and that have not run yet. */
  class RegistrationForm {
    var formData: map<string, FieldValue>
    var step: int
    var isSubmitting: bool
    var registrationComplete: bool
    ghost var pending: nat

    ghost predicate Valid()
      reads this
    {
      && 1 <= step <= 3
      && pending <= 1
      && (pending == 1 <==> isSubmitting)
      && (registrationComplete ==> !isSubmitting)
    }

    constructor ()
      ensures Valid()
      ensures formData.Keys == TextFields + {"agreeToTerms"}
      ensures forall k :: k in TextFields ==> formData[k] == Text("")
      ensures formData["agreeToTerms"] == Flag(false)
      ensures step == 1 && !isSubmitting && !registrationComplete && pending == 0
    {
      formData := InitialData;
      step := 1;
      isSubmitting := false;
      registrationComplete := false;
      pending := 0;
    }

    /** `handleChange`: stores the checkbox state or the string value under
        the input's name; nothing else changes. */
    method HandleChange(target: ChangeTarget)
      requires Valid()
      modifies this
      ensures Valid()
      ensures formData == Applied(old(formData), target)
      ensures step == old(step) && isSubmitting == old(isSubmitting)
      ensures registrationComplete == old(registrationComplete) && pending == old(pending)
    {
      if target.inputType == "checkbox" {
        formData := formData[target.name := Flag(target.checked)];
      } else {
        formData := formData[target.name := Text(target.value)];
      }
    }

    /** `handleSubmit`: before the last step it moves one step on, whether
        or not a submission is in flight (after Previous, Enter in the
        step-2 dietary-restrictions field, its only single-line input,
        still submits the form); on the last step it starts the
        simulated submission and schedules its completion. The form is
        replaced by the confirmation once registration is complete, and on
        the last step the submit button is disabled while submitting, so
        neither state reaches this handler. */
    method HandleSubmit()
      requires Valid()
      requires !registrationComplete && (step < 3 || !isSubmitting)
      modifies this
      ensures Valid()
      ensures old(step) < 3 ==> step == old(step) + 1 && isSubmitting == old(isSubmitting) && pending == old(pending)
      ensures old(step) == 3 ==> step == 3 && isSubmitting && pending == 1
      ensures formData == old(formData) && !registrationComplete
    {
      if step < 3 {
        step := step + 1;
        return;
      }
      isSubmitting := true;
      pending := pending + 1;
    }

    /** The body of the `setTimeout` callback scheduled by a final-step
        submit: the submission ends and the registration is complete; the
        entered data is kept. */
    method CompleteSubmission()
      requires Valid()
      requires pending > 0
      modifies this
      ensures Valid()
      ensures !isSubmitting && registrationComplete && pending == 0
      ensures formData == old(formData) && step == old(step)
    {
      isSubmitting := false;
      registrationComplete := true;
      pending := pending - 1;
    }

    /** `handlePrevious`: one step back. The Previous button exists only
        when the step is above 1. It is not disabled while submitting. */
    method HandlePrevious()
      requires Valid()
      requires step > 1
      modifies this
      ensures Valid()
      ensures step == old(step) - 1
      ensures formData == old(formData) && isSubmitting == old(isSubmitting)
      ensures registrationComplete == old(registrationComplete) && pending == old(pending)
    {
      step := step - 1;
    }
  }

  /** Going back a step and then forward again returns to the same step
      with the same entered data, also while a submission is in flight,
      which neither step cancels nor repeats. */
  method RetreatThenAdvance(form: RegistrationForm)
    requires form.Valid() && form.step > 1
    requires !form.registrationComplete
    modifies form
    ensures form.Valid()
    ensures form.step == old(form.step) && form.formData == old(form.formData)
    ensures form.isSubmitting == old(form.isSubmitting) && form.pending == old(form.pending)
    ensures !form.registrationComplete
  {
    form.HandlePrevious();
    form.HandleSubmit();
  }

  /** Previous stays clickable while the final submission is in flight, so
      the registration can complete while the wizard shows step 2. */
  method CompleteAfterStepBack() returns (form: RegistrationForm)
    ensures form.Valid() && form.registrationComplete && form.step == 2
  {
    form := new RegistrationForm();
    form.HandleSubmit();
    form.HandleSubmit();
    form.HandleSubmit();
    form.HandlePrevious();
    form.CompleteSubmission();
  }

  /** After stepping back during the final submission, a submit from step
      2 returns to step 3 with that same submission still in flight, and no
      second completion is scheduled. */
  method AdvanceWhileSubmitting() returns (form: RegistrationForm)
    ensures form.Valid() && form.step == 3 && form.isSubmitting && form.pending == 1
    ensures !form.registrationComplete
  {
    form := new RegistrationForm();
    form.HandleSubmit();
    form.HandleSubmit();
    form.HandleSubmit();
    form.HandlePrevious();
    form.HandleSubmit();
  }

  // ---------------------------------------------------------------------
  // The step-3 summary: `formData.phone || "Not provided"`.

  /** JavaScript truthiness of a stored value. A missing key reads as
      `undefined`, which is falsy. */
  predicate Truthy(v: FieldValue) {
    match v
    case Text(s) => s != ""
    case Flag(b) => b
    case Items(_) => true
  }

  function Concat(parts: seq<string>): string {
    if parts == [] then "" else parts[0] + Concat(parts[1..])
  }

  /** What React renders for a value: a string as it is, `true` as
      nothing, a list of strings as their concatenation. */
  function Rendered(v: FieldValue): string {
    match v
    case Text(s) => s
    case Flag(_) => ""
    case Items(xs) => Concat(xs)
  }

  /** The summary text shown for `key`: the value when it is truthy,
      otherwise "Not provided". */
  function SummaryLine(data: map<string, FieldValue>, key: string): (r: string)
    ensures key in data && data[key].Text? && data[key].text != "" ==> r == data[key].text
    ensures key !in data || data[key] == Text("") ==> r == "Not provided"
  {
    if key in data && Truthy(data[key]) then Rendered(data[key]) else "Not provided"
  }

  /** Phone and company are shown verbatim once a non-empty value has been
      typed into them, and as "Not provided" when they are left empty. */
  lemma SummaryAfterTyping(data: map<string, FieldValue>, key: string, typed: string, inputType: string)
    requires key == "phone" || key == "company"
    requires inputType != "checkbox"
    ensures var t := ChangeTarget(key, typed, inputType, false);
      SummaryLine(Applied(data, t), key) == if typed == "" then "Not provided" else typed
  {
  }

  lemma SummaryOfFreshForm()
    ensures SummaryLine(InitialData, "phone") == "Not provided"
    ensures SummaryLine(InitialData, "company") == "Not provided"
  {
  }

  // ---------------------------------------------------------------------
  // Google Calendar dates:
  //   iso.replace(/[-:]/g, '').replace(/\.\d+/g, '')

  predicate IsSeparator(c: char) {
    c == '-' || c == ':'
  }

  /** `a` is `b` with some characters taken out and the rest in order. */
  predicate IsSubsequence(a: string, b: string)
    decreases |b|
  {
    if b == [] then a == []
    else (a != [] && a[0] == b[0] && IsSubsequence(a[1..], b[1..])) || IsSubsequence(a, b[1..])
  }

  lemma {:induction false} SubsequenceOfLonger(a: string, p: string, b: string)
    requires IsSubsequence(a, b)
    ensures IsSubsequence(a, p + b)
    decreases |p|
  {
    if p != [] {
      SubsequenceOfLonger(a, p[1..], b);
      assert (p + b)[1..] == p[1..] + b;
    } else {
      assert p + b == b;
    }
  }

  /** The first replacement: every `-` and `:` is removed. */
  function RemoveSeparators(s: string): (r: string)
    ensures forall i :: 0 <= i < |r| ==> !IsSeparator(r[i])
    ensures |r| <= |s|
  {
    if s == [] then []
    else if IsSeparator(s[0]) then RemoveSeparators(s[1..])
    else [s[0]] + RemoveSeparators(s[1..])
  }

  /** The characters that remain are those of the input, in their order. */
  lemma {:induction false} RemoveSeparatorsKeepsOrder(s: string)
    ensures IsSubsequence(RemoveSeparators(s), s)
    decreases |s|
  {
    if s != [] {
      RemoveSeparatorsKeepsOrder(s[1..]);
      if IsSeparator(s[0]) {
        SubsequenceOfLonger(RemoveSeparators(s[1..]), [s[0]], s[1..]);
        assert [s[0]] + s[1..] == s;
      }
    }
  }

  /** Every character other than `-` and `:` is kept as often as it occurs. */
  lemma {:induction false} RemoveSeparatorsKeepsOthers(s: string, c: char)
    requires !IsSeparator(c)
    ensures multiset(RemoveSeparators(s))[c] == multiset(s)[c]
    decreases |s|
  {
    if s != [] {
      RemoveSeparatorsKeepsOthers(s[1..], c);
      assert s == [s[0]] + s[1..];
    }
  }

  /** The separator removal works piece by piece. */
  lemma {:induction false} RemoveSeparatorsAppend(a: string, b: string)
    ensures RemoveSeparators(a + b) == RemoveSeparators(a) + RemoveSeparators(b)
    decreases |a|
  {
    if a != [] {
      assert (a + b)[1..] == a[1..] + b;
      RemoveSeparatorsAppend(a[1..], b);
    } else {
      assert a + b == b;
    }
  }

  lemma {:induction false} RemoveSeparatorsDigits(s: string)
    requires AllDigits(s)
    ensures RemoveSeparators(s) == s
    decreases |s|
  {
    if s != [] {
      RemoveSeparatorsDigits(s[1..]);
      assert s == [s[0]] + s[1..];
    }
  }

  /** The longest run of digits at the front of `s` removed: what is left
      does not start with a digit. */
  function DropDigits(s: string): (r: string)
    ensures |r| <= |s|
    ensures r == [] || !IsDigit(r[0])
  {
    if s != [] && IsDigit(s[0]) then DropDigits(s[1..]) else s
  }

  /** What `DropDigits` removes is a run of digits in front of what it keeps. */
  lemma {:induction false} DropDigitsSplit(s: string)
    ensures var r := DropDigits(s);
      s == s[..|s| - |r|] + r && AllDigits(s[..|s| - |r|])
    decreases |s|
  {
    if s != [] && IsDigit(s[0]) {
      DropDigitsSplit(s[1..]);
      var r := DropDigits(s[1..]);
      assert s[..|s| - |r|] == [s[0]] + s[1..][..|s| - 1 - |r|];
    }
  }

  /** No `.` in `s` is directly followed by a digit. */
  predicate NoFraction(s: string) {
    forall i :: 0 <= i < |s| - 1 && s[i] == '.' ==> !IsDigit(s[i + 1])
  }

  /** The second replacement: each `.` followed by one or more digits is
      removed together with the whole digit run, scanning left to right.
      The result has no `.` before a digit, and it does not start with a
      digit when the input does not. */
  function RemoveFractions(s: string): (r: string)
    ensures NoFraction(r)
    ensures (s == [] || !IsDigit(s[0])) ==> (r == [] || !IsDigit(r[0]))
    decreases |s|
  {
    if s == [] then []
    else if s[0] == '.' && |s| > 1 && IsDigit(s[1]) then RemoveFractions(DropDigits(s[2..]))
    else [s[0]] + RemoveFractions(s[1..])
  }

  /** The characters that remain are those of the input, in their order. */
  lemma {:induction false} RemoveFractionsKeepsOrder(s: string)
    ensures IsSubsequence(RemoveFractions(s), s)
    decreases |s|
  {
    if s == [] {
    } else if s[0] == '.' && |s| > 1 && IsDigit(s[1]) {
      var tail := DropDigits(s[2..]);
      RemoveFractionsKeepsOrder(tail);
      DropDigitsSplit(s[2..]);
      var front := s[..2] + s[2..][..|s| - 2 - |tail|];
      assert s == front + tail;
      SubsequenceOfLonger(RemoveFractions(tail), front, tail);
    } else {
      RemoveFractionsKeepsOrder(s[1..]);
    }
  }

  /** Every character that is neither `.` nor a digit is kept as often as
      it occurs. */
  lemma {:induction false} RemoveFractionsKeepsOthers(s: string, c: char)
    requires c != '.' && !IsDigit(c)
    ensures multiset(RemoveFractions(s))[c] == multiset(s)[c]
    decreases |s|
  {
    if s == [] {
    } else if s[0] == '.' && |s| > 1 && IsDigit(s[1]) {
      var tail := DropDigits(s[2..]);
      RemoveFractionsKeepsOthers(tail, c);
      FractionRunHoldsNoOther(s, c);
      assert RemoveFractions(s) == RemoveFractions(tail);
    } else {
      RemoveFractionsKeepsOthers(s[1..], c);
      assert s == [s[0]] + s[1..];
    }
  }

  /** A skipped `.` and its digit run hold no character other than `.`
      and digits. */
  lemma FractionRunHoldsNoOther(s: string, c: char)
    requires |s| > 1 && s[0] == '.' && IsDigit(s[1])
    requires c != '.' && !IsDigit(c)
    ensures multiset(s)[c] == multiset(DropDigits(s[2..]))[c]
  {
    var rest := s[2..];
    var tail := DropDigits(rest);
    DropDigitsSplit(rest);
    var run := rest[..|rest| - |tail|];
    DigitsHoldNoOther(run, c);
    assert multiset(rest)[c] == multiset(tail)[c] by {
      assert multiset(rest) == multiset(run) + multiset(tail);
    }
    assert s == s[..2] + rest;
    assert multiset(s[..2])[c] == 0 by {
      assert s[..2] == [s[0], s[1]];
    }
    assert multiset(s) == multiset(s[..2]) + multiset(rest);
  }

  lemma {:induction false} DigitsHoldNoOther(run: string, c: char)
    requires AllDigits(run) && !IsDigit(c)
    ensures multiset(run)[c] == 0
    decreases |run|
  {
    if run != [] {
      DigitsHoldNoOther(run[1..], c);
      assert run == [run[0]] + run[1..];
    }
  }

  /** Text without any `.` passes through the fraction removal unchanged. */
  lemma {:induction false} RemoveFractionsPrefix(p: string, t: string)
    requires '.' !in p
    ensures RemoveFractions(p + t) == p + RemoveFractions(t)
    decreases |p|
  {
    if p != [] {
      assert (p + t)[0] == p[0];
      assert (p + t)[1..] == p[1..] + t;
      RemoveFractionsPrefix(p[1..], t);
    } else {
      assert p + t == t;
    }
  }

  lemma {:induction false} DropDigitsOfRun(run: string, t: string)
    requires AllDigits(run) && (t == [] || !IsDigit(t[0]))
    ensures DropDigits(run + t) == t
    decreases |run|
  {
    if run != [] {
      assert (run + t)[1..] == run[1..] + t;
      DropDigitsOfRun(run[1..], t);
    } else {
      assert run + t == t;
    }
  }

  /** The date value as it appears in the Google Calendar link. */
  function CalendarDate(iso: string): (r: string)
    ensures forall i :: 0 <= i < |r| ==> !IsSeparator(r[i])
    ensures NoFraction(r)
    ensures IsSubsequence(r, iso)
  {
    var stripped := RemoveSeparators(iso);
    RemoveSeparatorsKeepsOrder(iso);
    RemoveFractionsKeepsOrder(stripped);
    SubsequenceTransitive(RemoveFractions(stripped), stripped, iso);
    SubsequenceNoNewChars(RemoveFractions(stripped), stripped);
    RemoveFractions(stripped)
  }

  /** Every character that is not `-`, `:`, `.` or a digit occurs in the
      link's date as often as in the input. */
  lemma CalendarDateKeepsOthers(iso: string, c: char)
    requires !IsSeparator(c) && c != '.' && !IsDigit(c)
    ensures multiset(CalendarDate(iso))[c] == multiset(iso)[c]
  {
    RemoveSeparatorsKeepsOthers(iso, c);
    RemoveFractionsKeepsOthers(RemoveSeparators(iso), c);
  }

  lemma {:induction false} SubsequenceTransitive(a: string, b: string, c: string)
    requires IsSubsequence(a, b) && IsSubsequence(b, c)
    ensures IsSubsequence(a, c)
    decreases |c|
  {
    if c == [] {
    } else if b != [] && b[0] == c[0] && IsSubsequence(b[1..], c[1..]) {
      if a != [] && a[0] == b[0] && IsSubsequence(a[1..], b[1..]) {
        SubsequenceTransitive(a[1..], b[1..], c[1..]);
      } else {
        SubsequenceTransitive(a, b[1..], c[1..]);
      }
    } else {
      SubsequenceTransitive(a, b, c[1..]);
    }
  }

  lemma {:induction false} SubsequenceNoNewChars(a: string, b: string)
    requires IsSubsequence(a, b)
    ensures forall i :: 0 <= i < |a| ==> a[i] in b
    decreases |b|
  {
    if b != [] {
      if a != [] && a[0] == b[0] && IsSubsequence(a[1..], b[1..]) {
        SubsequenceNoNewChars(a[1..], b[1..]);
        forall i | 0 <= i < |a| ensures a[i] in b {
          if i > 0 { assert a[i] == a[1..][i - 1]; }
        }
      } else {
        SubsequenceNoNewChars(a, b[1..]);
      }
    }
  }

  /** For any timestamp of the shape `toISOString` produces,
      YYYY-MM-DDTHH:mm:ss.sssZ, the link carries YYYYMMDDTHHmmssZ. */
  lemma CalendarDateOfIsoString(y: string, mo: string, d: string, h: string, mi: string, sec: string, ms: string)
    requires AllDigits(y) && AllDigits(mo) && AllDigits(d)
    requires AllDigits(h) && AllDigits(mi) && AllDigits(sec)
    requires AllDigits(ms) && ms != []
    ensures CalendarDate(y + "-" + mo + "-" + d + "T" + h + ":" + mi + ":" + sec + "." + ms + "Z")
         == y + mo + d + "T" + h + mi + sec + "Z"
  {
    var dateTime := y + mo + d + "T" + h + mi + sec;
    var fraction := "." + ms + "Z";
    SeparatorsOfIsoString(y, mo, d, h, mi, sec, ms);
    assert y + mo + d + "T" + h + mi + sec + "." + ms + "Z" == dateTime + fraction;
    assert '.' !in dateTime by {
      forall i | 0 <= i < |dateTime| ensures dateTime[i] != '.' {
        DigitsOrT(y, mo, d, h, mi, sec, i);
      }
    }
    RemoveFractionsPrefix(dateTime, fraction);
    assert fraction[0] == '.' && fraction[1] == ms[0];
    assert fraction[2..] == ms[1..] + "Z";
    DropDigitsOfRun(ms[1..], "Z");
    assert RemoveFractions(fraction) == RemoveFractions("Z");
    assert RemoveFractions("Z") == "Z" by {
      assert "Z"[1..] == [];
    }
  }

  lemma DigitsOrT(y: string, mo: string, d: string, h: string, mi: string, sec: string, i: int)
    requires AllDigits(y) && AllDigits(mo) && AllDigits(d)
    requires AllDigits(h) && AllDigits(mi) && AllDigits(sec)
    requires 0 <= i < |y + mo + d + "T" + h + mi + sec|
    ensures (y + mo + d + "T" + h + mi + sec)[i] != '.'
  {
    var ymd := y + mo + d;
    var hms := h + mi + sec;
    assert y + mo + d + "T" + h + mi + sec == ymd + "T" + hms;
    assert AllDigits(ymd) && AllDigits(hms);
  }

  lemma SeparatorsOfIsoString(y: string, mo: string, d: string, h: string, mi: string, sec: string, ms: string)
    requires AllDigits(y) && AllDigits(mo) && AllDigits(d)
    requires AllDigits(h) && AllDigits(mi) && AllDigits(sec) && AllDigits(ms)
    ensures RemoveSeparators(y + "-" + mo + "-" + d + "T" + h + ":" + mi + ":" + sec + "." + ms + "Z")
         == y + mo + d + "T" + h + mi + sec + "." + ms + "Z"
  {
    DatePartWithoutSeparators(y, mo, d);
    TimePartWithoutSeparators(h, mi, sec, ms);
    RemoveSeparatorsAppend(y + "-" + mo + "-" + d + "T", h + ":" + mi + ":" + sec + "." + ms + "Z");
    RegroupAtT(y, mo, d, h, mi, sec, ms);
  }

  /** The date part of an ISO timestamp, up to its `T`, loses its dashes. */
  lemma DatePartWithoutSeparators(y: string, mo: string, d: string)
    requires AllDigits(y) && AllDigits(mo) && AllDigits(d)
    ensures RemoveSeparators(y + "-" + mo + "-" + d + "T") == y + mo + d + "T"
  {
    DateWithoutSeparators(y, mo, d);
    RemoveSeparatorsAppend(y + "-" + mo + "-" + d, "T");
  }

  /** The time part of an ISO timestamp, after its `T`, loses its colons. */
  lemma TimePartWithoutSeparators(h: string, mi: string, sec: string, ms: string)
    requires AllDigits(h) && AllDigits(mi) && AllDigits(sec) && AllDigits(ms)
    ensures RemoveSeparators(h + ":" + mi + ":" + sec + "." + ms + "Z") == h + mi + sec + "." + ms + "Z"
  {
    var time := h + ":" + mi + ":" + sec;
    DateWithoutSeparators(h, mi, sec);
    RemoveSeparatorsAppend(time + "." + ms, "Z");
    RemoveSeparatorsAppend(time + ".", ms);
    RemoveSeparatorsAppend(time, ".");
    RemoveSeparatorsDigits(ms);
  }

  /** The two ways of grouping an ISO timestamp around its `T`. */
  lemma RegroupAtT(y: string, mo: string, d: string, h: string, mi: string, sec: string, ms: string)
    ensures y + "-" + mo + "-" + d + "T" + h + ":" + mi + ":" + sec + "." + ms + "Z"
         == (y + "-" + mo + "-" + d + "T") + (h + ":" + mi + ":" + sec + "." + ms + "Z")
    ensures (y + mo + d + "T") + (h + mi + sec + "." + ms + "Z")
         == y + mo + d + "T" + h + mi + sec + "." + ms + "Z"
  {
  }

  /** Three digit groups joined by separators: only the digits remain. */
  lemma DateWithoutSeparators(a: string, b: string, c: string)
    requires AllDigits(a) && AllDigits(b) && AllDigits(c)
    ensures forall sep1, sep2 :: IsSeparator(sep1) && IsSeparator(sep2) ==>
      RemoveSeparators(a + [sep1] + b + [sep2] + c) == a + b + c
  {
    forall sep1, sep2 | IsSeparator(sep1) && IsSeparator(sep2)
      ensures RemoveSeparators(a + [sep1] + b + [sep2] + c) == a + b + c
    {
      RemoveSeparatorsAppend(a + [sep1] + b + [sep2], c);
      RemoveSeparatorsAppend(a + [sep1] + b, [sep2]);
      RemoveSeparatorsAppend(a + [sep1], b);
      RemoveSeparatorsAppend(a, [sep1]);
      RemoveSeparatorsDigits(a);
      RemoveSeparatorsDigits(b);
      RemoveSeparatorsDigits(c);
    }
  }

  /** The event's start time as the link carries it. */
  lemma WorkshopStartDate()
    ensures CalendarDate("2025-07-15T12:30:00.000Z") == "20250715T123000Z"
  {
    CalendarDateOfIsoString("2025", "07", "15", "12", "30", "00", "000");
    assert "2025" + "-" + "07" + "-" + "15" + "T" == "2025-07-15T";
    assert "2025-07-15T" + "12" + ":" + "30" + ":" + "00" == "2025-07-15T12:30:00";
    assert "2025-07-15T12:30:00" + "." + "000" + "Z" == "2025-07-15T12:30:00.000Z";
    assert "2025" + "07" + "15" + "T" == "20250715T";
    assert "20250715T" + "12" + "30" + "00" + "Z" == "20250715T123000Z";
  }
}

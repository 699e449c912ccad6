/**
 * `parseSummary` and the reminder classification of the recording page's script: a Markdown
 * summary is read line by line; `### ` headings choose the current section, bullets under
 * "key points", "action items" and "medical information" are collected, and other text lines make
 * up the free-text summary.
 */
module SummaryParser {
  import opened Wrappers
  import opened JsStrings

  /** A medical-information entry, `{ term, definition }`. */
  datatype MedicalTerm = MedicalTerm(term: string, definition: string)

  /** The object `parseSummary` returns. */
  datatype Sections = Sections(summary: string, keyPoints: seq<string>, actionItems: seq<string>, medicalTerms: seq<MedicalTerm>)

  /** The prefixes a medical-information point must start with to be kept. */
  const MedicalPrefixes: seq<string> := ["Medications:", "Conditions:", "Vitals/Metrics:"]

  /** `t.startsWith('•') || t.startsWith('-')`. */
  predicate HasBulletMark(t: string)
  {
    StartsWith(t, [Bullet]) || StartsWith(t, "-")
  }

  /** The test the medical-information case makes before keeping a point. */
  predicate IsMedicalPoint(point: string)
  {
    StartsWith(point, "Medications:") || StartsWith(point, "Conditions:") || StartsWith(point, "Vitals/Metrics:")
  }

  /** `const [term, ...definition] = point.split(':')`, both sides trimmed and the definition rejoined with `:`. */
  function SplitTerm(point: string): MedicalTerm
  {
    var parts := Split(point, ':');
    MedicalTerm(Trim(parts[0]), Trim(Join(parts[1..], ":")))
  }

  /** The entry a medical-information point contributes, if it is kept. */
  function MedicalEntry(point: string): Option<MedicalTerm>
  {
    if IsMedicalPoint(point) then Some(SplitTerm(point)) else None
  }

  /**
   * What a line is to the parser once trimmed, in the order the parser tests it: a `### `
   * heading naming a section, a bullet carrying a point (and the entry that point makes under
   * "medical information", if any), a line of text, or a line that is skipped (blank, or a
   * heading of another level).
   */
  datatype LineKind =
    | Heading(section: string)
    | BulletLine(point: string, entry: Option<MedicalTerm>)
    | TextLine(text: string)
    | Skipped

  function Classify(line: string): LineKind
  {
    var t := Trim(line);
    if StartsWith(t, "### ") then Heading(ToLower(t[4..]))
    else if HasBulletMark(t) then
      var point := Trim(t[1..]);
      BulletLine(point, MedicalEntry(point))
    else if t != "" && !StartsWith(t, "#") then TextLine(t)
    else Skipped
  }

  /**
   * A heading names the rest of the trimmed line after `### `, lowercased; a bullet's point is
   * the trimmed line less its first character, trimmed again; a text line is the trimmed line,
   * which is neither blank nor starts with `#`, and has no white space at either end.
   */
  lemma ClassifyRule(line: string)
    ensures var t := Trim(line);
      match Classify(line)
      case Heading(section) => StartsWith(t, "### ") && section == ToLower(t[4..])
      case BulletLine(point, entry) =>
        && !StartsWith(t, "### ") && HasBulletMark(t)
        && point == Trim(t[1..]) && entry == MedicalEntry(point)
      case TextLine(text) =>
        && text == t && !StartsWith(t, "### ") && !HasBulletMark(t) && !StartsWith(t, "#")
        && text != [] && !IsJsSpace(text[0]) && !IsJsSpace(text[|text| - 1])
      case Skipped => t == [] || (StartsWith(t, "#") && !StartsWith(t, "### "))
  {
    TrimRule(line);
  }

  /** The loop's variables: the current section, the summary so far, and the three lists. */
  datatype ParseState = ParseState(
    section: string, summary: string,
    keyPoints: seq<string>, actionItems: seq<string>, medicalTerms: seq<MedicalTerm>)

  const Start := ParseState("", "", [], [], [])

  /** The `switch (currentSection)` on a bullet's point. */
  function FilePoint(st: ParseState, point: string, entry: Option<MedicalTerm>): ParseState
  {
    if st.section == "key points" then st.(keyPoints := st.keyPoints + [point])
    else if st.section == "action items" then st.(actionItems := st.actionItems + [point])
    else if st.section == "medical information" && entry.Some? then st.(medicalTerms := st.medicalTerms + [entry.value])
    else st
  }

  /** One turn of the parser's loop on a line of kind `kind`. */
  function Step(st: ParseState, kind: LineKind): ParseState
  {
    match kind
    case Heading(section) => st.(section := section)
    case BulletLine(point, entry) => FilePoint(st, point, entry)
    case TextLine(text) => st.(summary := st.summary + text + "\n")
    case Skipped => st
  }

  /** The kind of every line. */
  function Kinds(lines: seq<string>): (kinds: seq<LineKind>)
    ensures |kinds| == |lines|
    ensures forall k :: 0 <= k < |lines| ==> kinds[k] == Classify(lines[k])
  {
    seq(|lines|, k requires 0 <= k < |lines| => Classify(lines[k]))
  }

  /** The loop's variables after its first `n` turns over lines of kinds `kinds`. */
  function Steps(kinds: seq<LineKind>, n: nat): ParseState
    requires n <= |kinds|
  {
    if n == 0 then Start else Step(Steps(kinds, n - 1), kinds[n - 1])
  }

  /** The value `parseSummary(markdown)` returns. */
  function SummaryOf(markdown: string): (r: Sections)
    ensures r.summary == [] || (!IsJsSpace(r.summary[0]) && !IsJsSpace(r.summary[|r.summary| - 1]))
  {
    var kinds := Kinds(Split(markdown, '\n'));
    var st := Steps(kinds, |kinds|);
    TrimRule(st.summary);
    Sections(Trim(st.summary), st.keyPoints, st.actionItems, st.medicalTerms)
  }

  /** One pass of the `for (const line of lines)` body: the current section and the object being filled. */
  method ParseLineStep(st: ParseState, line: string) returns (next: ParseState)
    ensures next == Step(st, Classify(line))
  {
    next := st;
    var trimmedLine := Trim(line);
    if StartsWith(trimmedLine, "### ") {
      next := next.(section := ToLower(trimmedLine[4..]));
    } else if HasBulletMark(trimmedLine) {
      var point := Trim(trimmedLine[1..]);
      if st.section == "key points" {
        next := next.(keyPoints := next.keyPoints + [point]);
      } else if st.section == "action items" {
        next := next.(actionItems := next.actionItems + [point]);
      } else if st.section == "medical information" {
        if IsMedicalPoint(point) {
          next := next.(medicalTerms := next.medicalTerms + [SplitTerm(point)]);
        }
      }
    } else if trimmedLine != "" && !StartsWith(trimmedLine, "#") {
      next := next.(summary := next.summary + trimmedLine + "\n");
    }
  }

  /** `parseSummary`: the loop over the lines, then the final trim of the summary. */
  method ParseSummary(markdown: string) returns (sections: Sections)
    ensures sections == SummaryOf(markdown)
  {
    var lines := Split(markdown, '\n');
    ghost var kinds := Kinds(lines);
    var st := Start;
    var i := 0;
    while i < |lines|
      invariant 0 <= i <= |lines|
      invariant st == Steps(kinds, i)
    {
      st := ParseLineStep(st, lines[i]);
      i := i + 1;
    }
    sections := Sections(Trim(st.summary), st.keyPoints, st.actionItems, st.medicalTerms);
  }

  // ---------------------------------------------------------------------------------------
  // Medical entries

  /**
   * A kept medical-information point starts with one of the three prefixes; its term is then
   * that prefix's name and its definition the rest of the point, trimmed.
   */
  lemma MedicalPrefixEntry(point: string, prefix: string)
    requires prefix in MedicalPrefixes && StartsWith(point, prefix)
    ensures MedicalEntry(point) == Some(MedicalTerm(prefix[..|prefix| - 1], Trim(point[|prefix|..])))
  {
    var name := prefix[..|prefix| - 1];
    assert point[..|name|] == name && point[|name|] == ':' by {
      assert point[..|prefix|][..|name|] == point[..|name|];
    }
    if prefix == "Medications:" {
      assert name == "Medications";
    } else if prefix == "Conditions:" {
      assert name == "Conditions";
    } else {
      assert name == "Vitals/Metrics";
    }
    TermBeforeColon(point, name);
  }

  /** A point that opens with a name free of `:` and of edge spaces, then `:`, splits into that name and the trimmed rest. */
  lemma TermBeforeColon(point: string, name: string)
    requires name != [] && ':' !in name && !IsJsSpace(name[0]) && !IsJsSpace(name[|name| - 1])
    requires |name| < |point| && point[..|name|] == name && point[|name|] == ':'
    ensures SplitTerm(point) == MedicalTerm(name, Trim(point[|name| + 1..]))
  {
    FirstIndexAt(point, ':', |name|);
    SplitHeadAndRest(point, ':');
    TrimUntouched(name);
  }

  // ---------------------------------------------------------------------------------------
  // The sections, characterised line by line

  /** The section in force at line `k`: the name of the last `### ` heading before it, or "" when there is none. */
  function SectionBefore(kinds: seq<LineKind>, k: nat): string
    requires k <= |kinds|
  {
    if k == 0 then ""
    else if kinds[k - 1].Heading? then kinds[k - 1].section
    else SectionBefore(kinds, k - 1)
  }

  /** The points of the bullet lines among the first `n` lines that stand under section `name`, in order. */
  function PointsUnder(kinds: seq<LineKind>, n: nat, name: string): seq<string>
    requires n <= |kinds|
  {
    if n == 0 then []
    else
      var c := kinds[n - 1];
      PointsUnder(kinds, n - 1, name) + (if c.BulletLine? && SectionBefore(kinds, n - 1) == name then [c.point] else [])
  }

  /** The kept entries of the bullet lines among the first `n` lines under "medical information", in order. */
  function MedicalUnder(kinds: seq<LineKind>, n: nat): seq<MedicalTerm>
    requires n <= |kinds|
  {
    if n == 0 then []
    else
      var c := kinds[n - 1];
      var kept := c.BulletLine? && c.entry.Some? && SectionBefore(kinds, n - 1) == "medical information";
      MedicalUnder(kinds, n - 1) + (if kept then [c.entry.value] else [])
  }

  /** The trimmed text lines among the first `n` lines, in order. */
  function TextLines(kinds: seq<LineKind>, n: nat): seq<string>
    requires n <= |kinds|
  {
    if n == 0 then []
    else
      var c := kinds[n - 1];
      TextLines(kinds, n - 1) + (if c.TextLine? then [c.text] else [])
  }

  /** The summary before its final trim: every text line followed by a newline. */
  function Terminated(ts: seq<string>): string
  {
    if ts == [] then "" else Terminated(ts[..|ts| - 1]) + ts[|ts| - 1] + "\n"
  }

  /** After any prefix of the lines the parser is in the section of the last heading seen. */
  lemma {:induction false} SectionTracked(kinds: seq<LineKind>, n: nat)
    requires n <= |kinds|
    ensures Steps(kinds, n).section == SectionBefore(kinds, n)
  {
    if n > 0 {
      SectionTracked(kinds, n - 1);
    }
  }

  /**
   * `keyPoints` holds, in input order, the points of exactly the bullets that stand under
   * "key points"; bullets under any other section, or before any heading, are not in it.
   */
  lemma {:induction false} KeyPointsTracked(kinds: seq<LineKind>, n: nat)
    requires n <= |kinds|
    ensures Steps(kinds, n).keyPoints == PointsUnder(kinds, n, "key points")
  {
    if n > 0 {
      KeyPointsTracked(kinds, n - 1);
      SectionTracked(kinds, n - 1);
    }
  }

  /** `actionItems` holds, in input order, the points of exactly the bullets under "action items". */
  lemma {:induction false} ActionItemsTracked(kinds: seq<LineKind>, n: nat)
    requires n <= |kinds|
    ensures Steps(kinds, n).actionItems == PointsUnder(kinds, n, "action items")
  {
    if n > 0 {
      ActionItemsTracked(kinds, n - 1);
      SectionTracked(kinds, n - 1);
    }
  }

  /**
   * `medicalTerms` holds, in input order, the entries of exactly the bullets under "medical
   * information" whose point starts with one of the three prefixes.
   */
  lemma {:induction false} MedicalTermsTracked(kinds: seq<LineKind>, n: nat)
    requires n <= |kinds|
    ensures Steps(kinds, n).medicalTerms == MedicalUnder(kinds, n)
  {
    if n > 0 {
      MedicalTermsTracked(kinds, n - 1);
      SectionTracked(kinds, n - 1);
    }
  }

  /** The summary, before its final trim, holds the text lines, each followed by a newline. */
  lemma {:induction false} TextTracked(kinds: seq<LineKind>, n: nat)
    requires n <= |kinds|
    ensures Steps(kinds, n).summary == Terminated(TextLines(kinds, n))
  {
    if n > 0 {
      TextTracked(kinds, n - 1);
      var c := kinds[n - 1];
      var ts := TextLines(kinds, n - 1);
      if c.TextLine? {
        var ts' := ts + [c.text];
        assert TextLines(kinds, n) == ts';
        assert ts'[..|ts'| - 1] == ts;
        assert Terminated(ts') == Terminated(ts) + c.text + "\n";
      } else {
        assert TextLines(kinds, n) == ts;
      }
    }
  }

  /** `parts.join(sep)` with one more part at the end. */
  lemma {:induction false} JoinSnoc(parts: seq<string>, t: string, sep: string)
    requires parts != []
    ensures Join(parts + [t], sep) == Join(parts, sep) + sep + t
    decreases |parts|
  {
    if |parts| > 1 {
      assert (parts + [t])[1..] == parts[1..] + [t];
      JoinSnoc(parts[1..], t, sep);
    }
  }

  /** Every non-empty list of lines, each followed by a newline, is the lines joined with newlines, plus one. */
  lemma {:induction false} TerminatedIsJoin(ts: seq<string>)
    requires ts != []
    ensures Terminated(ts) == Join(ts, "\n") + "\n"
    decreases |ts|
  {
    var init := ts[..|ts| - 1];
    if init != [] {
      TerminatedIsJoin(init);
      JoinSnoc(init, ts[|ts| - 1], "\n");
      assert init + [ts[|ts| - 1]] == ts;
    } else {
      assert ts == [ts[0]];
    }
  }

  /** Joined non-empty lines that are already trimmed begin and end with a character that is not white space. */
  lemma {:induction false} JoinOfTrimmed(ts: seq<string>, sep: string)
    requires ts != []
    requires forall k :: 0 <= k < |ts| ==> ts[k] != [] && !IsJsSpace(ts[k][0]) && !IsJsSpace(ts[k][|ts[k]| - 1])
    ensures var j := Join(ts, sep); j != [] && !IsJsSpace(j[0]) && !IsJsSpace(j[|j| - 1])
    decreases |ts|
  {
    if |ts| > 1 {
      JoinOfTrimmed(ts[1..], sep);
      var rest := Join(ts[1..], sep);
      assert Join(ts, sep) == ts[0] + sep + rest;
      assert Join(ts, sep)[|Join(ts, sep)| - 1] == rest[|rest| - 1];
    }
  }

  lemma TrimDropsFinalNewline(s: string)
    requires s != [] && !IsJsSpace(s[0]) && !IsJsSpace(s[|s| - 1])
    ensures Trim(s + "\n") == s
  {
    var u := s + "\n";
    assert TrimStart(u) == u;
    assert u[..|u| - 1] == s;
    assert TrimEnd(u) == TrimEnd(s);
  }

  lemma {:induction false} TextLinesAreTrimmed(lines: seq<string>, n: nat)
    requires n <= |lines|
    ensures forall k :: 0 <= k < |TextLines(Kinds(lines), n)| ==>
      var t := TextLines(Kinds(lines), n)[k]; t != [] && !IsJsSpace(t[0]) && !IsJsSpace(t[|t| - 1])
  {
    if n > 0 {
      TextLinesAreTrimmed(lines, n - 1);
      ClassifyRule(lines[n - 1]);
    }
  }

  /** The summary is the text lines of the input, each trimmed, joined with newlines. */
  lemma SummaryIsJoinedTextLines(markdown: string)
    ensures var kinds := Kinds(Split(markdown, '\n'));
      SummaryOf(markdown).summary == Join(TextLines(kinds, |kinds|), "\n")
  {
    var lines := Split(markdown, '\n');
    var kinds := Kinds(lines);
    TextTracked(kinds, |kinds|);
    var ts := TextLines(kinds, |kinds|);
    if ts != [] {
      TerminatedIsJoin(ts);
      TextLinesAreTrimmed(lines, |lines|);
      JoinOfTrimmed(ts, "\n");
      TrimDropsFinalNewline(Join(ts, "\n"));
    }
  }

  // ---------------------------------------------------------------------------------------
  // Reminders

  /** The reminder form `showReminderModal` fills in for `info`. */
  datatype Reminder = Reminder(title: string, kind: string, notes: string)

  /**
   * Information mentioning `Medications:` becomes a medicine reminder titled with the information
   * less its first `Medications:`, trimmed; anything else becomes an appointment. The notes are
   * the information itself.
   */
  function ReminderFor(info: string): (r: Reminder)
    ensures r.notes == info
    ensures r.kind == "Medicine" <==> Includes(info, "Medications:")
    ensures r.kind != "Medicine" ==> r.kind == "Appointment" && r.title == "Appointment"
    ensures Includes(info, "Medications:") ==>
      var k := IndexOf(info, "Medications:");
      r.title == Trim(info[..k] + info[k + 12..])
  {
    if Includes(info, "Medications:") then
      var k := IndexOf(info, "Medications:");
      assert info[..k] + "" + info[k + |"Medications:"|..] == info[..k] + info[k + 12..];
      Reminder(Trim(ReplaceFirst(info, "Medications:", "")), "Medicine", info)
    else
      Reminder("Appointment", "Appointment", info)
  }
}

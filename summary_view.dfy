/**
 * The text processing of the summaries page script: the line-oriented Markdown renderer
 * `markdownToHtml`, the renderer of summaries stored in the older structured format, the preview
 * text of a summary card, the search filter over the cards, and the recording clock.
 */
module SummaryView {
  import opened Wrappers
  import opened JsStrings
  import SummaryParser

  // ---------------------------------------------------------------------------------------
  // markdownToHtml

  /** What a line is to the renderer once trimmed, in the order the renderer tests it. */
  datatype Block =
    | Blank
    | Heading(level: int, text: string)
    | ListItem(content: string)
    | Paragraph(text: string)

  function ClassifyLine(raw: string): Block
  {
    var line := Trim(raw);
    if line == "" then Blank
    else if StartsWith(line, "### ") then Heading(3, line[4..])
    else if StartsWith(line, "## ") then Heading(2, line[3..])
    else if StartsWith(line, "# ") then Heading(1, line[2..])
    else if StartsWith(line, [Bullet, ' ']) || StartsWith(line, "- ") then ListItem(Trim(line[2..]))
    else Paragraph(line)
  }

  /**
   * A line is blank exactly when it trims to nothing. Otherwise the heading prefixes are tried
   * longest first, `### ` then `## ` then `# `, and the heading's text is the trimmed line less its
   * prefix; then a `• ` or `- ` bullet, whose content is the rest of the line trimmed; and any other
   * line is a paragraph of the trimmed line.
   */
  lemma ClassifyLineRule(raw: string)
    ensures var line := Trim(raw);
      && (ClassifyLine(raw).Blank? <==> line == "")
      && (line != "" && StartsWith(line, "### ") ==> ClassifyLine(raw) == Heading(3, line[4..]))
      && (line != "" && !StartsWith(line, "### ") && StartsWith(line, "## ") ==>
            ClassifyLine(raw) == Heading(2, line[3..]))
      && (line != "" && !StartsWith(line, "### ") && !StartsWith(line, "## ") && StartsWith(line, "# ") ==>
            ClassifyLine(raw) == Heading(1, line[2..]))
      && (ClassifyLine(raw).ListItem? <==>
            line != "" && !StartsWith(line, "# ") && !StartsWith(line, "## ") && !StartsWith(line, "### ")
            && (StartsWith(line, [Bullet, ' ']) || StartsWith(line, "- ")))
      && (ClassifyLine(raw).ListItem? ==> ClassifyLine(raw).content == Trim(line[2..]))
      && (ClassifyLine(raw).Paragraph? ==> ClassifyLine(raw).text == line)
  {
    var line := Trim(raw);
    if StartsWith(line, "### ") || StartsWith(line, "## ") {
      assert line[0] == '#';
    }
  }

  /** The kind of every line. */
  function Blocks(lines: seq<string>): (blocks: seq<Block>)
    ensures |blocks| == |lines|
    ensures forall k :: 0 <= k < |lines| ==> blocks[k] == ClassifyLine(lines[k])
  {
    seq(|lines|, k requires 0 <= k < |lines| => ClassifyLine(lines[k]))
  }

  /** The tag of a heading of level 1, 2 or 3. */
  function HeadingTag(level: int): string
  {
    if level == 3 then "h3" else if level == 2 then "h2" else "h1"
  }

  /** `text` inside a `<tag>` element. */
  function Element(tag: string, text: string): string
  {
    "<" + tag + ">" + text + "</" + tag + ">"
  }

  /** The loop's variables: the `result` array and the `inList` flag. */
  datatype Rendering = Rendering(result: seq<string>, inList: bool)

  /** `if (inList) { result.push('</ul>'); inList = false; }` */
  function CloseList(r: Rendering): Rendering
  {
    if r.inList then Rendering(r.result + ["</ul>"], false) else r
  }

  /** `if (!inList) { result.push('<ul>'); inList = true; }` */
  function OpenList(r: Rendering): Rendering
  {
    if r.inList then r else Rendering(r.result + ["<ul>"], true)
  }

  /**
   * The one element a line of kind `b` pushes. `inline` stands for the bold and italic
   * rewriting applied to list items and paragraphs.
   */
  function LinePart(b: Block, inline: string -> string): string
  {
    match b
    case Blank => "<br>"
    case Heading(level, text) => Element(HeadingTag(level), text)
    case ListItem(content) => Element("li", inline(content))
    case Paragraph(text) => Element("p", inline(text))
  }

  /** One turn of the loop on a line of kind `b`: a list item opens a list, any other line closes one. */
  function RenderBlock(r: Rendering, b: Block, inline: string -> string): Rendering
  {
    var o := if b.ListItem? then OpenList(r) else CloseList(r);
    o.(result := o.result + [LinePart(b, inline)])
  }

  /** The loop's variables after its first `n` turns. */
  function RenderBlocks(blocks: seq<Block>, n: nat, inline: string -> string): Rendering
    requires n <= |blocks|
  {
    if n == 0 then Rendering([], false) else RenderBlock(RenderBlocks(blocks, n - 1, inline), blocks[n - 1], inline)
  }

  /** Every line pushes at least one part. */
  lemma {:induction false} RenderBlocksGrow(blocks: seq<Block>, n: nat, inline: string -> string)
    requires n <= |blocks|
    ensures |RenderBlocks(blocks, n, inline).result| >= n
  {
    if n > 0 {
      RenderBlocksGrow(blocks, n - 1, inline);
    }
  }

  /** The `result` array `markdownToHtml` joins: nothing for empty input; otherwise the loop, then the last list closed. */
  function MarkdownParts(markdown: string, inline: string -> string): (parts: seq<string>)
    ensures markdown != "" ==> |parts| >= |Split(markdown, '\n')|
  {
    if markdown == "" then []
    else
      var blocks := Blocks(Split(markdown, '\n'));
      RenderBlocksGrow(blocks, |blocks|, inline);
      CloseList(RenderBlocks(blocks, |blocks|, inline)).result
  }

  /** One turn of the `for` loop of `markdownToHtml` on the raw line `raw`. */
  method RenderLineStep(result: seq<string>, inList: bool, raw: string, inline: string -> string)
    returns (result': seq<string>, inList': bool)
    ensures Rendering(result', inList') == RenderBlock(Rendering(result, inList), ClassifyLine(raw), inline)
  {
    result', inList' := result, inList;
    var line := Trim(raw);
    if line == "" {
      if inList' {
        result' := result' + ["</ul>"];
        inList' := false;
      }
      result' := result' + ["<br>"];
      return;
    }
    if StartsWith(line, "### ") {
      if inList' {
        result' := result' + ["</ul>"];
        inList' := false;
      }
      result' := result' + [Element("h3", line[4..])];
    } else if StartsWith(line, "## ") {
      if inList' {
        result' := result' + ["</ul>"];
        inList' := false;
      }
      result' := result' + [Element("h2", line[3..])];
    } else if StartsWith(line, "# ") {
      if inList' {
        result' := result' + ["</ul>"];
        inList' := false;
      }
      result' := result' + [Element("h1", line[2..])];
    } else if StartsWith(line, [Bullet, ' ']) || StartsWith(line, "- ") {
      if !inList' {
        result' := result' + ["<ul>"];
        inList' := true;
      }
      var content := Trim(line[2..]);
      result' := result' + [Element("li", inline(content))];
    } else {
      if inList' {
        result' := result' + ["</ul>"];
        inList' := false;
      }
      result' := result' + [Element("p", inline(line))];
    }
  }

  /** `markdownToHtml(markdown)`: the `result` array built line by line, joined with `''`. */
  method MarkdownToHtml(markdown: string, inline: string -> string) returns (html: string)
    ensures html == Concat(MarkdownParts(markdown, inline))
  {
    if markdown == "" {
      return "";
    }
    var lines := Split(markdown, '\n');
    var result, inList := RenderLines(lines, inline);
    if inList {
      result := result + ["</ul>"];
    }
    html := Concat(result);
  }

  /** The `for` loop of `markdownToHtml` over the lines: the `result` array and the `inList` flag it leaves. */
  method RenderLines(lines: seq<string>, inline: string -> string) returns (result: seq<string>, inList: bool)
    ensures Rendering(result, inList) == RenderBlocks(Blocks(lines), |lines|, inline)
  {
    result, inList := [], false;
    var i := 0;
    while i < |lines|
      invariant 0 <= i <= |lines|
      invariant Rendering(result, inList) == RenderBlocks(Blocks(lines), i, inline)
    {
      RenderBlocksStep(lines, i, inline);
      result, inList := RenderLineStep(result, inList, lines[i], inline);
      i := i + 1;
    }
  }

  /** Rendering one more line renders its block on top of the lines before it. */
  lemma RenderBlocksStep(lines: seq<string>, i: nat, inline: string -> string)
    requires i < |lines|
    ensures RenderBlocks(Blocks(lines), i + 1, inline) == RenderBlock(RenderBlocks(Blocks(lines), i, inline), ClassifyLine(lines[i]), inline)
  {
    var blocks := Blocks(lines);
    assert blocks[i] == ClassifyLine(lines[i]);
  }

  /** Empty input renders as the empty string. */
  lemma EmptyMarkdown(inline: string -> string)
    ensures MarkdownParts("", inline) == [] && Concat(MarkdownParts("", inline)) == ""
  {
  }

  /** The list markers among the parts, in order: `true` for `<ul>`, `false` for `</ul>`. */
  function ListMarks(parts: seq<string>): seq<bool>
  {
    if parts == [] then []
    else
      var p := parts[|parts| - 1];
      ListMarks(parts[..|parts| - 1]) + (if p == "<ul>" then [true] else if p == "</ul>" then [false] else [])
  }

  /** Markers alternate, beginning with `<ul>`: each `<ul>` is closed by one `</ul>` before the next opens. */
  ghost predicate Alternating(marks: seq<bool>)
  {
    && (marks != [] ==> marks[0])
    && forall k :: 0 < k < |marks| ==> marks[k] != marks[k - 1]
  }

  /** The last marker is a `<ul>`: a list is open. */
  predicate LastOpen(marks: seq<bool>)
  {
    marks != [] && marks[|marks| - 1]
  }

  lemma {:induction false} ListMarksAppend(a: seq<string>, b: seq<string>)
    ensures ListMarks(a + b) == ListMarks(a) + ListMarks(b)
    decreases |b|
  {
    if b == [] {
      assert a + b == a;
    } else {
      assert (a + b)[..|a + b| - 1] == a + b[..|b| - 1];
      ListMarksAppend(a, b[..|b| - 1]);
    }
  }

  lemma ListMarksOne(p: string)
    ensures ListMarks([p]) == if p == "<ul>" then [true] else if p == "</ul>" then [false] else []
  {
    assert [p][..0] == [];
  }

  /** An element whose tag does not begin with `u` or `/` is not a list marker. */
  lemma ElementNotAMark(tag: string, text: string)
    requires tag != [] && tag[0] != 'u' && tag[0] != '/'
    ensures ListMarks([Element(tag, text)]) == []
  {
    ListMarksOne(Element(tag, text));
    assert Element(tag, text)[1] == tag[0];
    assert "<ul>"[1] == 'u' && "</ul>"[1] == '/';
  }

  /** Appending a part that is not a marker leaves the markers as they were. */
  lemma AppendNonMark(parts: seq<string>, p: string)
    requires ListMarks([p]) == []
    ensures ListMarks(parts + [p]) == ListMarks(parts)
  {
    ListMarksAppend(parts, [p]);
  }

  /** Closing an open list adds one `</ul>` marker, and leaves no list open. */
  lemma CloseListMarks(r: Rendering)
    ensures ListMarks(CloseList(r).result) == ListMarks(r.result) + (if r.inList then [false] else [])
    ensures !CloseList(r).inList
  {
    if r.inList {
      ListMarksAppend(r.result, ["</ul>"]);
      ListMarksOne("</ul>");
    }
  }

  /** Opening a list adds one `<ul>` marker when none is open, and leaves a list open. */
  lemma OpenListMarks(r: Rendering)
    ensures ListMarks(OpenList(r).result) == ListMarks(r.result) + (if r.inList then [] else [true])
    ensures OpenList(r).inList
  {
    if !r.inList {
      ListMarksAppend(r.result, ["<ul>"]);
      ListMarksOne("<ul>");
    } else {
      assert ListMarks(r.result) + [] == ListMarks(r.result);
    }
  }

  /** The element a line pushes is never a list marker. */
  lemma LinePartNotAMark(b: Block, inline: string -> string)
    ensures ListMarks([LinePart(b, inline)]) == []
  {
    match b
    case Blank =>
      ListMarksOne("<br>");
      assert "<br>"[1] == 'b' && "<ul>"[1] == 'u' && "</ul>"[1] == '/';
    case Heading(level, text) =>
      ElementNotAMark(HeadingTag(level), text);
    case ListItem(content) =>
      ElementNotAMark("li", inline(content));
    case Paragraph(text) =>
      ElementNotAMark("p", inline(text));
  }

  /** What one turn adds to the parts, as list markers. */
  lemma RenderBlockMarks(r: Rendering, b: Block, inline: string -> string)
    ensures var r' := RenderBlock(r, b, inline);
      && ListMarks(r'.result) == ListMarks(r.result) + (
           if b.ListItem? then (if r.inList then [] else [true])
           else (if r.inList then [false] else []))
      && r'.inList == b.ListItem?
  {
    var o := if b.ListItem? then OpenList(r) else CloseList(r);
    OpenListMarks(r);
    CloseListMarks(r);
    LinePartNotAMark(b, inline);
    AppendNonMark(o.result, LinePart(b, inline));
  }

  /** A marker that continues the alternation keeps it. */
  lemma AlternatingSnoc(marks: seq<bool>, m: bool)
    requires Alternating(marks) && m == !LastOpen(marks)
    ensures Alternating(marks + [m]) && LastOpen(marks + [m]) == m
  {
  }

  /**
   * After any number of lines the list markers so far alternate, beginning with `<ul>`, and a
   * list is open (an odd number of markers) exactly when the last line was a list item: a run of
   * consecutive bullets shares one `<ul>`, and any other line closes it.
   */
  lemma {:induction false} RenderBlocksNesting(blocks: seq<Block>, n: nat, inline: string -> string)
    requires n <= |blocks|
    ensures var r := RenderBlocks(blocks, n, inline);
      && Alternating(ListMarks(r.result))
      && (r.inList <==> LastOpen(ListMarks(r.result)))
      && (r.inList <==> n > 0 && blocks[n - 1].ListItem?)
  {
    if n > 0 {
      RenderBlocksNesting(blocks, n - 1, inline);
      var r := RenderBlocks(blocks, n - 1, inline);
      RenderBlockMarks(r, blocks[n - 1], inline);
      var marks := ListMarks(r.result);
      if blocks[n - 1].ListItem? && !r.inList {
        AlternatingSnoc(marks, true);
      } else if !blocks[n - 1].ListItem? && r.inList {
        AlternatingSnoc(marks, false);
      } else {
        assert marks + [] == marks;
      }
    }
  }

  /**
   * `markdownToHtml` never leaves a `<ul>` unclosed: in its parts, every `<ul>` is followed by
   * exactly one `</ul>` before any other `<ul>`, and the last list is closed at the end.
   */
  lemma ListsAlwaysClosed(markdown: string, inline: string -> string)
    ensures var marks := ListMarks(MarkdownParts(markdown, inline));
      Alternating(marks) && !LastOpen(marks)
  {
    if markdown != "" {
      var blocks := Blocks(Split(markdown, '\n'));
      var r := RenderBlocks(blocks, |blocks|, inline);
      RenderBlocksNesting(blocks, |blocks|, inline);
      if r.inList {
        ListMarksAppend(r.result, ["</ul>"]);
        ListMarksOne("</ul>");
        AlternatingSnoc(ListMarks(r.result), false);
      }
    }
  }

  /**
   * What line `n` adds to the parts: a blank line closes an open list and then adds `<br>`; a
   * heading closes an open list and adds its tag around its text; a list item opens a `<ul>`
   * only when the line before it was not a list item, then adds its `<li>`; a paragraph closes an
   * open list and adds its `<p>`.
   */
  lemma LineOutput(blocks: seq<Block>, n: nat, inline: string -> string)
    requires n < |blocks|
    ensures var before := RenderBlocks(blocks, n, inline).result;
      var after := RenderBlocks(blocks, n + 1, inline).result;
      var open := n > 0 && blocks[n - 1].ListItem?;
      var close := if open then ["</ul>"] else [];
      match blocks[n]
      case Blank => after == before + close + ["<br>"]
      case Heading(level, text) => after == before + close + [Element(HeadingTag(level), text)]
      case ListItem(content) => after == before + (if open then [] else ["<ul>"]) + [Element("li", inline(content))]
      case Paragraph(text) => after == before + close + [Element("p", inline(text))]
  {
    RenderBlocksNesting(blocks, n, inline);
    var before := RenderBlocks(blocks, n, inline).result;
    assert before + [] == before;
  }

  // ---------------------------------------------------------------------------------------
  // buildSummaryFromOldFormat

  const NoSummaryContent := "<p>No summary content available</p>"

  /** The `<li>` of each point, in order. */
  function ItemsHtml(items: seq<string>): string
  {
    if items == [] then "" else ItemsHtml(items[..|items| - 1]) + "<li>" + items[|items| - 1] + "</li>"
  }

  /** The `<li>` of each medical term: the term in bold followed by a colon, then its definition. */
  function TermsHtml(terms: seq<SummaryParser.MedicalTerm>): string
  {
    if terms == [] then ""
    else
      var t := terms[|terms| - 1];
      TermsHtml(terms[..|terms| - 1]) + "<li><strong>" + t.term + ":</strong> " + t.definition + "</li>"
  }

  /** A titled section: `<h3>` title, then the list. */
  function Section(title: string, items: string): string
  {
    "<h3>" + title + "</h3><ul>" + items + "</ul>"
  }

  /** The content built before the fallback: the non-empty sections in a fixed order. */
  function OldFormatContent(keyPoints: seq<string>, medicalTerms: seq<SummaryParser.MedicalTerm>, actionItems: seq<string>): string
  {
    (if |keyPoints| > 0 then Section("Key Points", ItemsHtml(keyPoints)) else "")
    + (if |medicalTerms| > 0 then Section("Medical Information", TermsHtml(medicalTerms)) else "")
    + (if |actionItems| > 0 then Section("Action Items", ItemsHtml(actionItems)) else "")
  }

  /** `buildSummaryFromOldFormat`: the content, or the placeholder when it is empty. */
  function OldFormatHtml(keyPoints: seq<string>, medicalTerms: seq<SummaryParser.MedicalTerm>, actionItems: seq<string>): (html: string)
    ensures html != ""
    ensures keyPoints == [] && medicalTerms == [] && actionItems == [] ==> html == NoSummaryContent
  {
    var content := OldFormatContent(keyPoints, medicalTerms, actionItems);
    if content == "" then NoSummaryContent else content
  }

  /** `items.forEach(point => { content += `<li>${point}</li>` })` */
  method AppendItems(content: string, items: seq<string>) returns (content': string)
    ensures content' == content + ItemsHtml(items)
  {
    content' := content;
    var k := 0;
    while k < |items|
      invariant 0 <= k <= |items|
      invariant content' == content + ItemsHtml(items[..k])
    {
      assert items[..k + 1][..k] == items[..k];
      content' := content' + "<li>" + items[k] + "</li>";
      k := k + 1;
    }
    assert items[..k] == items;
  }

  /** The `forEach` over the medical terms. */
  method AppendTerms(content: string, terms: seq<SummaryParser.MedicalTerm>) returns (content': string)
    ensures content' == content + TermsHtml(terms)
  {
    content' := content;
    var k := 0;
    while k < |terms|
      invariant 0 <= k <= |terms|
      invariant content' == content + TermsHtml(terms[..k])
    {
      assert terms[..k + 1][..k] == terms[..k];
      content' := content' + "<li><strong>" + terms[k].term + ":</strong> " + terms[k].definition + "</li>";
      k := k + 1;
    }
    assert terms[..k] == terms;
  }

  /** `content += '<h3>title</h3><ul>'`, then the items' `<li>`s one by one, then `'</ul>'`. */
  method AppendItemsSection(content: string, title: string, items: seq<string>) returns (content': string)
    ensures content' == content + Section(title, ItemsHtml(items))
  {
    content' := content + "<h3>" + title + "</h3><ul>";
    content' := AppendItems(content', items);
    content' := content' + "</ul>";
  }

  /** The same for the medical terms. */
  method AppendTermsSection(content: string, title: string, terms: seq<SummaryParser.MedicalTerm>) returns (content': string)
    ensures content' == content + Section(title, TermsHtml(terms))
  {
    content' := content + "<h3>" + title + "</h3><ul>";
    content' := AppendTerms(content', terms);
    content' := content' + "</ul>";
  }

  /** `buildSummaryFromOldFormat(summaryData)`; a missing list is an empty one. */
  method BuildSummaryFromOldFormat(keyPoints: seq<string>, medicalTerms: seq<SummaryParser.MedicalTerm>, actionItems: seq<string>)
    returns (html: string)
    ensures html == OldFormatHtml(keyPoints, medicalTerms, actionItems)
  {
    ghost var a := if |keyPoints| > 0 then Section("Key Points", ItemsHtml(keyPoints)) else "";
    ghost var b := if |medicalTerms| > 0 then Section("Medical Information", TermsHtml(medicalTerms)) else "";
    ghost var c := if |actionItems| > 0 then Section("Action Items", ItemsHtml(actionItems)) else "";
    var content := "";
    if |keyPoints| > 0 {
      content := AppendItemsSection(content, "Key Points", keyPoints);
      assert "" + a == a;
    }
    assert content == a;
    if |medicalTerms| > 0 {
      content := AppendTermsSection(content, "Medical Information", medicalTerms);
    } else {
      assert a + b == a;
    }
    assert content == a + b;
    if |actionItems| > 0 {
      content := AppendItemsSection(content, "Action Items", actionItems);
    } else {
      assert a + b + c == a + b;
    }
    assert content == a + b + c;
    html := if content == "" then NoSummaryContent else content;
  }

  /** Every section opens with `<h`, which the placeholder paragraph does not. */
  lemma SectionOpensWithHeading(title: string, items: string)
    ensures |Section(title, items)| > 1 && Section(title, items)[1] == 'h'
  {
    assert Section(title, items) == "<h3>" + (title + "</h3><ul>" + items + "</ul>");
  }

  /** Content made of pieces that are empty or open with `<h` differs from any placeholder that does not. */
  lemma FallbackOnlyWhenEmpty(a: string, b: string, c: string, placeholder: string)
    requires |placeholder| > 1 && placeholder[1] != 'h'
    requires a == "" || (|a| > 1 && a[1] == 'h')
    requires b == "" || (|b| > 1 && b[1] == 'h')
    requires c == "" || (|c| > 1 && c[1] == 'h')
    ensures (if a + b + c == "" then placeholder else a + b + c) == placeholder <==> a == "" && b == "" && c == ""
  {
    var content := a + b + c;
    if a != "" {
      assert content[1] == a[1];
    } else if b != "" {
      assert content == b + c;
      assert content[1] == b[1];
    } else if c != "" {
      assert content == c;
    }
  }

  /** The placeholder is shown exactly when all three lists are empty. */
  lemma PlaceholderIffNoSections(keyPoints: seq<string>, medicalTerms: seq<SummaryParser.MedicalTerm>, actionItems: seq<string>)
    ensures OldFormatHtml(keyPoints, medicalTerms, actionItems) == NoSummaryContent
      <==> keyPoints == [] && medicalTerms == [] && actionItems == []
  {
    SectionOpensWithHeading("Key Points", ItemsHtml(keyPoints));
    SectionOpensWithHeading("Medical Information", TermsHtml(medicalTerms));
    SectionOpensWithHeading("Action Items", ItemsHtml(actionItems));
    var a := if |keyPoints| > 0 then Section("Key Points", ItemsHtml(keyPoints)) else "";
    var b := if |medicalTerms| > 0 then Section("Medical Information", TermsHtml(medicalTerms)) else "";
    var c := if |actionItems| > 0 then Section("Action Items", ItemsHtml(actionItems)) else "";
    assert NoSummaryContent[1] == 'p';
    FallbackOnlyWhenEmpty(a, b, c, NoSummaryContent);
  }

  /**
   * The sections keep a fixed order: the output begins with the Key Points section when there are
   * key points, with the Medical Information section when there are only medical terms and action
   * items, and is the Action Items section alone when there are action items alone; it ends with
   * the Action Items section whenever there are action items.
   */
  lemma SectionOrder(keyPoints: seq<string>, medicalTerms: seq<SummaryParser.MedicalTerm>, actionItems: seq<string>)
    ensures var html := OldFormatHtml(keyPoints, medicalTerms, actionItems);
      && (keyPoints != [] ==> StartsWith(html, Section("Key Points", ItemsHtml(keyPoints))))
      && (keyPoints == [] && medicalTerms != [] ==> StartsWith(html, Section("Medical Information", TermsHtml(medicalTerms))))
      && (keyPoints == [] && medicalTerms == [] && actionItems != [] ==> html == Section("Action Items", ItemsHtml(actionItems)))
      && (actionItems != [] ==>
            var last := Section("Action Items", ItemsHtml(actionItems));
            |last| <= |html| && html[|html| - |last|..] == last)
  {
    SectionOpensWithHeading("Key Points", ItemsHtml(keyPoints));
    SectionOpensWithHeading("Medical Information", TermsHtml(medicalTerms));
    SectionOpensWithHeading("Action Items", ItemsHtml(actionItems));
    var a := if |keyPoints| > 0 then Section("Key Points", ItemsHtml(keyPoints)) else "";
    var b := if |medicalTerms| > 0 then Section("Medical Information", TermsHtml(medicalTerms)) else "";
    var c := if |actionItems| > 0 then Section("Action Items", ItemsHtml(actionItems)) else "";
    PiecesInOrder(a, b, c);
  }

  /** Concatenated pieces begin with the first non-empty one and end with the last. */
  lemma PiecesInOrder(a: string, b: string, c: string)
    ensures StartsWith(a + b + c, a)
    ensures a == "" ==> StartsWith(a + b + c, b)
    ensures a == "" && b == "" ==> a + b + c == c
    ensures |c| <= |a + b + c| && (a + b + c)[|a + b + c| - |c|..] == c
  {
    assert (a + b + c)[..|a|] == a;
    assert (b + c)[..|b|] == b;
    if a == "" {
      assert a + b + c == b + c;
    }
  }


  // ---------------------------------------------------------------------------------------
  // Card preview text

  const PreviewLength: nat := 100

  /**
   * The preview of a transcription: its first 100 characters, followed by `...` exactly when the
   * transcription is longer than that.
   */
  function TranscriptionPreview(transcription: string): (preview: string)
    ensures |transcription| <= PreviewLength ==> preview == transcription
    ensures |transcription| > PreviewLength ==>
      |preview| == PreviewLength + 3
      && preview[..PreviewLength] == transcription[..PreviewLength]
      && preview[PreviewLength..] == "..."
  {
    var preview := Prefix(transcription, PreviewLength);
    if |transcription| > PreviewLength then preview + "..." else preview
  }

  /** The line the fallback preview is made from: the first that has a `• ` and does not say `None mentioned`. */
  function KeyPointLine(lines: seq<string>): (r: Option<nat>)
    ensures r.Some? ==>
      (r.value < |lines| && Includes(lines[r.value], [Bullet, ' ']) && !Includes(lines[r.value], "None mentioned"))
    ensures forall k :: 0 <= k < |lines| && (r.None? || k < r.value) ==>
      !(Includes(lines[k], [Bullet, ' ']) && !Includes(lines[k], "None mentioned"))
  {
    if lines == [] then None
    else if Includes(lines[0], [Bullet, ' ']) && !Includes(lines[0], "None mentioned") then Some(0)
    else
      var r := KeyPointLine(lines[1..]);
      if r.None? then None else Some(r.value + 1)
  }

  /**
   * The preview from a key-point line as the page computes it: the line without its first `• `,
   * cut to 100 characters, and `...` added when the line BEFORE the removal is longer than 100.
   */
  function KeyPointPreviewAsWritten(line: string): (preview: string)
    ensures var stripped := ReplaceFirst(line, [Bullet, ' '], "");
      var n := if |stripped| < PreviewLength then |stripped| else PreviewLength;
      && |preview| == n + (if |line| > PreviewLength then 3 else 0)
      && preview[..n] == stripped[..n]
      && (|line| > PreviewLength ==> preview[n..] == "...")
  {
    var stripped := ReplaceFirst(line, [Bullet, ' '], "");
    Prefix(stripped, PreviewLength) + (if |line| > PreviewLength then "..." else "")
  }

  /**
   * A line of 101 characters, a `• ` then 99 letters, is shown whole, as nothing was cut from it,
   * yet followed by `...`.
   */
  lemma KeyPointEllipsisWithoutCut()
    ensures var line := [Bullet, ' '] + seq(99, _ => 'a');
      var stripped := seq(99, _ => 'a');
      KeyPointPreviewAsWritten(line) == stripped + "..."
  {
    var line := [Bullet, ' '] + seq(99, _ => 'a');
    var stripped: string := seq(99, _ => 'a');
    assert OccursAt(line, [Bullet, ' '], 0);
    assert IndexOf(line, [Bullet, ' ']) == 0;
    assert line[2..] == stripped;
    assert ReplaceFirst(line, [Bullet, ' '], "") == stripped;
  }

  /** The preview from a key-point line with `...` added exactly when something was cut. */
  function KeyPointPreview(line: string): (preview: string)
    ensures var stripped := ReplaceFirst(line, [Bullet, ' '], "");
      && (|stripped| <= PreviewLength ==> preview == stripped)
      && (|stripped| > PreviewLength ==> preview == stripped[..PreviewLength] + "...")
  {
    TranscriptionPreview(ReplaceFirst(line, [Bullet, ' '], ""))
  }

  /** A string that `trim()` leaves non-empty, the test `s && s.trim()` makes of a string field. */
  predicate HasText(s: string)
  {
    Trim(s) != ""
  }

  /**
   * The preview text of a summary card, as the page computes it: from the transcription when it
   * has text; otherwise from the first key-point line of the Markdown summary, or a fixed message
   * when there is none; otherwise another fixed message. A missing field is an empty string.
   */
  function CardPreview(transcription: string, summary: string): (preview: string)
    ensures HasText(transcription) ==> preview == TranscriptionPreview(transcription)
    ensures !HasText(transcription) && HasText(summary) ==>
      var lines := Split(summary, '\n');
      var found := KeyPointLine(lines);
      && (found.Some? ==> preview == KeyPointPreviewAsWritten(lines[found.value]))
      && (found.None? ==> preview == "No content preview available")
    ensures !HasText(transcription) && !HasText(summary) ==> preview == "No content available"
  {
    if HasText(transcription) then TranscriptionPreview(transcription)
    else if HasText(summary) then
      var lines := Split(summary, '\n');
      var found := KeyPointLine(lines);
      if found.Some? then KeyPointPreviewAsWritten(lines[found.value]) else "No content preview available"
    else "No content available"
  }

  /** The card preview with the corrected key-point rule, which adds `...` only when something was cut. */
  function CardPreviewCorrected(transcription: string, summary: string): (preview: string)
    ensures HasText(transcription) ==> preview == TranscriptionPreview(transcription)
    ensures !HasText(transcription) && HasText(summary) ==>
      var lines := Split(summary, '\n');
      var found := KeyPointLine(lines);
      && (found.Some? ==> preview == KeyPointPreview(lines[found.value]))
      && (found.None? ==> preview == "No content preview available")
    ensures !HasText(transcription) && !HasText(summary) ==> preview == "No content available"
  {
    if HasText(transcription) then TranscriptionPreview(transcription)
    else if HasText(summary) then
      var lines := Split(summary, '\n');
      var found := KeyPointLine(lines);
      if found.Some? then KeyPointPreview(lines[found.value]) else "No content preview available"
    else "No content available"
  }

  /**
   * The correction changes only the `...`: both rules show the same text, and they differ exactly
   * when the line is longer than 100 characters but the text left after removing `• ` is not,
   * where the page's rule adds a `...` after text that was not cut.
   */
  lemma CorrectionOnlyDropsSpuriousEllipsis(line: string)
    ensures var stripped := ReplaceFirst(line, [Bullet, ' '], "");
      && (|stripped| <= PreviewLength < |line| ==> KeyPointPreviewAsWritten(line) == KeyPointPreview(line) + "...")
      && (!(|stripped| <= PreviewLength < |line|) ==> KeyPointPreviewAsWritten(line) == KeyPointPreview(line))
  {
    var stripped := ReplaceFirst(line, [Bullet, ' '], "");
    assert |stripped| <= |line| by {
      if Includes(line, [Bullet, ' ']) {
        var k := IndexOf(line, [Bullet, ' ']);
        assert OccursAt(line, [Bullet, ' '], k);
      }
    }
  }

  // ---------------------------------------------------------------------------------------
  // Search

  /** A summary card's title and content as the filter reads them (`''` when absent). */
  datatype Card = Card(title: string, content: string)

  /** The test `filterSummaries` makes of a card. */
  predicate Matches(card: Card, term: string)
  {
    || term == ""
    || Includes(ToLower(card.title), ToLower(term))
    || Includes(ToLower(card.content), ToLower(term))
  }

  /** The outcome of a test on each element, in order. */
  function Flags<T>(xs: seq<T>, test: T -> bool): (flags: seq<bool>)
    ensures |flags| == |xs|
  {
    if xs == [] then [] else Flags(xs[..|xs| - 1], test) + [test(xs[|xs| - 1])]
  }

  /** The flag of element `k` is its test. */
  lemma {:induction false} FlagAt<T>(xs: seq<T>, test: T -> bool, k: nat)
    requires k < |xs|
    ensures Flags(xs, test)[k] == test(xs[k])
    decreases |xs|
  {
    var init := xs[..|xs| - 1];
    if k < |init| {
      FlagAt(init, test, k);
      assert init[k] == xs[k];
    }
  }

  /** Which of the cards `filterSummaries` leaves displayed, in page order. */
  function Shown(cards: seq<Card>, term: string): (flags: seq<bool>)
    ensures |flags| == |cards|
  {
    Flags(cards, card => Matches(card, term))
  }

  /** A card is displayed exactly when it matches the search term. */
  lemma ShownRule(cards: seq<Card>, term: string)
    ensures forall k :: 0 <= k < |cards| ==> Shown(cards, term)[k] == Matches(cards[k], term)
  {
    forall k | 0 <= k < |cards|
      ensures Shown(cards, term)[k] == Matches(cards[k], term)
    {
      FlagAt(cards, card => Matches(card, term), k);
    }
  }

  /** Deciding one more card appends its match to the flags. */
  lemma ShownStep(cards: seq<Card>, term: string, k: nat)
    requires k < |cards|
    ensures Shown(cards[..k + 1], term) == Shown(cards[..k], term) + [Matches(cards[k], term)]
  {
    var test := card => Matches(card, term);
    assert cards[..k + 1][..k] == cards[..k];
    assert Flags(cards[..k + 1], test) == Flags(cards[..k], test) + [test(cards[k])];
  }

  /** How many flags are set. */
  function CountTrue(flags: seq<bool>): (n: nat)
    ensures n <= |flags|
  {
    if flags == [] then 0 else CountTrue(flags[..|flags| - 1]) + (if flags[|flags| - 1] then 1 else 0)
  }

  /** How many of the cards match: the number left displayed. */
  function CountMatches(cards: seq<Card>, term: string): (n: nat)
    ensures n <= |cards|
  {
    CountTrue(Shown(cards, term))
  }

  /** One more flag adds one to the count exactly when it is set. */
  lemma CountTrueSnoc(flags: seq<bool>, b: bool)
    ensures CountTrue(flags + [b]) == CountTrue(flags) + (if b then 1 else 0)
  {
    assert (flags + [b])[..|flags|] == flags;
  }

  /** The count is zero exactly when no flag is set. */
  lemma {:induction false} CountTrueZero(flags: seq<bool>)
    ensures CountTrue(flags) == 0 <==> forall k :: 0 <= k < |flags| ==> !flags[k]
  {
    if flags != [] {
      var init := flags[..|flags| - 1];
      CountTrueZero(init);
      assert forall k :: 0 <= k < |init| ==> init[k] == flags[k];
    }
  }

  /** The outcome of `filterSummaries`: which cards are displayed, how many, and the no-results message if shown. */
  datatype Filtered = Filtered(displayed: seq<bool>, visibleCount: nat, noResults: Option<string>)

  /** `filterSummaries(searchTerm)` over the cards on the page. */
  method FilterSummaries(cards: seq<Card>, term: string) returns (f: Filtered)
    ensures f.displayed == Shown(cards, term)
    ensures f.visibleCount == CountMatches(cards, term)
    ensures f.noResults.Some? <==> f.visibleCount == 0 && term != "" && |cards| > 0
    ensures f.noResults.Some? ==> f.noResults.value == "No summaries found for \"" + term + "\""
  {
    var displayed: seq<bool> := [];
    var visibleCount := 0;
    var k := 0;
    while k < |cards|
      invariant 0 <= k <= |cards|
      invariant displayed == Shown(cards[..k], term)
      invariant visibleCount == CountTrue(displayed)
    {
      ShownStep(cards, term, k);
      var shown := Matches(cards[k], term);
      CountTrueSnoc(displayed, shown);
      displayed := displayed + [shown];
      if shown {
        visibleCount := visibleCount + 1;
      }
      k := k + 1;
    }
    assert cards[..k] == cards;
    var message := None;
    if visibleCount == 0 && term != "" && |cards| > 0 {
      message := Some("No summaries found for \"" + term + "\"");
    }
    f := Filtered(displayed, visibleCount, message);
  }

  /**
   * The match ignores case: lowercasing the title, the content or the search term first changes
   * nothing.
   */
  lemma MatchIgnoresCase(card: Card, term: string)
    ensures Matches(Card(ToLower(card.title), ToLower(card.content)), ToLower(term)) == Matches(card, term)
  {
    ToLowerIdempotent(card.title);
    ToLowerIdempotent(card.content);
    ToLowerIdempotent(term);
  }

  /** No card is shown exactly when none matches. */
  lemma NoneShownIffNoneMatches(cards: seq<Card>, term: string)
    ensures CountMatches(cards, term) == 0 <==> forall k :: 0 <= k < |cards| ==> !Matches(cards[k], term)
  {
    ShownRule(cards, term);
    CountTrueZero(Shown(cards, term));
    if CountMatches(cards, term) != 0 {
      var k :| 0 <= k < |cards| && Shown(cards, term)[k];
      assert Matches(cards[k], term);
    } else {
      forall k | 0 <= k < |cards|
        ensures !Matches(cards[k], term)
      {
        assert !Shown(cards, term)[k];
      }
    }
  }

  /** An empty search shows every card and never the no-results message. */
  lemma {:induction false} EmptySearchShowsAll(cards: seq<Card>)
    ensures CountMatches(cards, "") == |cards|
  {
    if cards != [] {
      var init := cards[..|cards| - 1];
      EmptySearchShowsAll(init);
      var test := card => Matches(card, "");
      assert Flags(cards, test) == Flags(init, test) + [test(cards[|cards| - 1])];
      assert Shown(cards, "") == Shown(init, "") + [true];
      CountTrueSnoc(Shown(init, ""), true);
    }
  }

  // ---------------------------------------------------------------------------------------
  // Recording clock

  /**
   * `updateRecordingTime` for `elapsedMillis` milliseconds since the recording started: whole
   * minutes, then whole seconds past the minute, each as at least two digits.
   */
  function RecordingClock(elapsedMillis: nat): (clock: string)
    ensures |clock| >= 5 && clock[|clock| - 3] == ':'
  {
    var elapsed := elapsedMillis / 1000;
    NumberLength(elapsed % 60);
    PadStartZeros(NumberToString(elapsed / 60), 2) + ":" + PadStartZeros(NumberToString(elapsed % 60), 2)
  }

  /**
   * The clock reads `mm:ss`: exactly two digits after the colon, at least two before it, and the
   * minutes times sixty plus the seconds are the whole seconds elapsed, with the seconds below sixty.
   */
  lemma RecordingClockReadsBack(elapsedMillis: nat)
    ensures var clock := RecordingClock(elapsedMillis);
      && |clock| >= 5 && clock[|clock| - 3] == ':'
      && var minutes := clock[..|clock| - 3];
      var seconds := clock[|clock| - 2..];
      && AllDigits(minutes) && AllDigits(seconds)
      && DigitsValue(seconds) < 60
      && DigitsValue(minutes) * 60 + DigitsValue(seconds) == elapsedMillis / 1000
  {
    var elapsed := elapsedMillis / 1000;
    var m := PadStartZeros(NumberToString(elapsed / 60), 2);
    var s := PadStartZeros(NumberToString(elapsed % 60), 2);
    NumberToStringRoundTrip(elapsed / 60);
    NumberToStringRoundTrip(elapsed % 60);
    PadStartZerosValue(NumberToString(elapsed / 60), 2);
    PadStartZerosValue(NumberToString(elapsed % 60), 2);
    NumberLength(elapsed % 60);
    var clock := m + ":" + s;
    assert clock[..|clock| - 3] == m;
    assert clock[|clock| - 2..] == s;
  }

  /** A number below 100 takes at most two digits. */
  lemma NumberLength(n: nat)
    requires n < 100
    ensures |NumberToString(n)| <= 2
  {
  }
}

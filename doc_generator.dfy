/** The strict extractor: documentation blocks of kind `code` are rendered
    as a fenced C span (the code that follows the block) and a quoted
    paragraph, blocks of the empty kind as plain text; everything else is
    skipped. Malformed block lines, an unterminated block and an unknown
    kind stop the extraction. */
module DocGenerator {
  import opened TextUtil
  import opened DocSyntax

  /** Why extraction stops; the script raises a bare string in each case. */
  datatype Error =
    | UnexpectedLine(text: string)
    | UnexpectedEof
    | UnknownDocType(kind: string)

  /** A forward-only cursor over the lines of the input. */
  class Lines {
    const lines: seq<string>
    var current: nat

    constructor (text: string)
      ensures lines == SplitLines(text) && current == 0
    {
      lines := SplitLines(text);
      current := 0;
    }

    /** The line under the cursor; being a function, it cannot move it. */
    function Peek(): (r: Option<string>)
      reads this
      ensures r.Some? <==> current < |lines|
      ensures r.Some? ==> r.value == lines[current]
    {
      LineAt(lines, current)
    }

    /** Moves one line on, returning the line that was under the cursor;
        past the end it still moves, and returns nothing. */
    method Next() returns (r: Option<string>)
      modifies this
      ensures current == old(current) + 1
      ensures r == LineAt(lines, old(current))
    {
      current := current + 1;
      r := LineAt(lines, current - 1);
    }
  }

  /** One body line: a line starting with ` *` is accepted, and any other
      is refused, reported without its last character. */
  function ParseDocLine(line: string): (r: Result<string, Error>)
    ensures r.Ok? <==> StartsWith(line, " *")
    ensures r.Err? ==> r.error == UnexpectedLine(if line == [] then [] else line[..|line| - 1])
  {
    if StartsWith(line, " * ") then Ok(LineContent(line[3..]) + "\n")
    else if StartsWith(line, " *") then Ok(LineContent(line[2..]) + "\n")
    else Err(UnexpectedLine(if line == [] then [] else line[..|line| - 1]))
  }

  /** An accepted body line gives the text after ` * `, or after ` *` when
      no space follows the star, up to its newline, and then a newline. */
  lemma ParseDocLineText(line: string)
    requires StartsWith(line, " *")
    ensures var text := ParseDocLine(line).value;
            && |text| >= 1 && text[|text| - 1] == '\n'
            && ContentAfter(line, if StartsWith(line, " * ") then " * " else " *", text[..|text| - 1])
  {
    var n := if StartsWith(line, " * ") then 3 else 2;
    var content := LineContent(line[n..]);
    assert line[..n + |content|] == line[..n] + content;
    assert (content + "\n")[..|content|] == content;
  }

  /** Every line in `lines[from..to]` is a body line that does not close the block. */
  predicate BodyLines(lines: seq<string>, from: nat, to: nat)
    requires from <= to <= |lines|
  {
    forall k :: from <= k < to ==> StartsWith(lines[k], " *") && !IsEndLine(lines[k])
  }

  /** The normalised text of body lines, each preceded by `prepend`. */
  function BodyText(body: seq<string>, prepend: string): string
    requires forall k :: 0 <= k < |body| ==> StartsWith(body[k], " *")
  {
    if body == [] then "" else prepend + ParseDocLine(body[0]).value + BodyText(body[1..], prepend)
  }

  /** The block body starting at `pos`: the text gathered up to the closing
      line, and the index of that line, which is not consumed. */
  function DocSection(lines: seq<string>, pos: nat, prepend: string): (r: Result<(string, nat), Error>)
    ensures r.Ok? ==> pos <= r.value.1 < |lines| && IsEndLine(lines[r.value.1])
    decreases if pos <= |lines| then |lines| - pos else 0
  {
    if !Truthy(LineAt(lines, pos)) then Err(UnexpectedEof)
    else if IsEndLine(lines[pos]) then Ok(("", pos))
    else
      match ParseDocLine(lines[pos])
      case Err(e) => Err(e)
      case Ok(text) =>
        match DocSection(lines, pos + 1, prepend)
        case Err(e) => Err(e)
        case Ok((rest, end)) => Ok((prepend + text + rest, end))
  }

  /** What extraction yields per block, in source order. */
  datatype Section =
    | CodeBlock(code: string, doc: string)
    | TextBlock(doc: string)

  function RenderSection(s: Section): string {
    match s
    case CodeBlock(code, doc) => "```c\n" + Strip(code) + "\n" + "```\n" + doc + "\n<br/>\n\n"
    case TextBlock(doc) => doc
  }

  function Render(sections: seq<Section>): string {
    if sections == [] then "" else RenderSection(sections[0]) + Render(sections[1..])
  }

  function RenderResult(r: Result<seq<Section>, Error>): Result<string, Error> {
    match r
    case Ok(sections) => Ok(Render(sections))
    case Err(e) => Err(e)
  }

  /** The block opened by a start line of kind `kind` at `pos`, and where
      the scan resumes: a `code` block takes its body (quoted with `> `),
      its closing line and the code after it; a block of the empty kind
      takes its body and leaves the closing line to the scan; any other
      kind is refused. */
  function OpenBlock(lines: seq<string>, pos: nat, kind: string): (r: Result<(Section, nat), Error>)
    requires pos < |lines|
    ensures r.Ok? ==> pos < r.value.1 <= |lines|
  {
    if kind == "code" then
      match DocSection(lines, pos + 1, "> ")
      case Err(e) => Err(e)
      case Ok((doc, end)) =>
        var (code, after) := CodeSection(lines, end + 1);
        Ok((CodeBlock(code, doc), after))
    else if kind == "" then
      match DocSection(lines, pos + 1, "")
      case Err(e) => Err(e)
      case Ok((doc, end)) => Ok((TextBlock(doc), end))
    else Err(UnknownDocType(kind))
  }

  /** The blocks found from `pos` on, in order; lines that open no block
      are passed over. */
  function Scan(lines: seq<string>, pos: nat): (r: Result<seq<Section>, Error>)
    ensures r.Ok? && pos <= |lines| ==> |r.value| <= |lines| - pos
    decreases if pos <= |lines| then |lines| - pos else 0
  {
    if !Truthy(LineAt(lines, pos)) then Ok([])
    else
      match StartKind(lines[pos])
      case None => Scan(lines, pos + 1)
      case Some(kind) =>
        match OpenBlock(lines, pos, kind)
        case Err(e) => Err(e)
        case Ok((section, next)) =>
          match Scan(lines, next)
          case Err(e) => Err(e)
          case Ok(rest) => Ok([section] + rest)
  }

  /** A line that opens no block is passed over. */
  lemma ScanOtherLine(lines: seq<string>, pos: nat)
    requires pos < |lines| && lines[pos] != [] && StartKind(lines[pos]).None?
    ensures Scan(lines, pos) == Scan(lines, pos + 1)
  {
  }

  /** A block whose body is malformed or unterminated fails the scan. */
  lemma ScanBlockFails(lines: seq<string>, pos: nat, kind: string)
    requires pos < |lines| && lines[pos] != [] && StartKind(lines[pos]) == Some(kind)
    requires kind == "code" || kind == ""
    requires DocSection(lines, pos + 1, if kind == "code" then "> " else "").Err?
    ensures Scan(lines, pos) == Err(DocSection(lines, pos + 1, if kind == "code" then "> " else "").error)
  {
    assert OpenBlock(lines, pos, kind) == Err(DocSection(lines, pos + 1, if kind == "code" then "> " else "").error);
  }

  /** A start line of any kind but `code` and the empty one fails the scan. */
  lemma ScanUnknownKind(lines: seq<string>, pos: nat)
    requires pos < |lines| && lines[pos] != [] && StartKind(lines[pos]).Some?
    requires StartKind(lines[pos]).value != "code" && StartKind(lines[pos]).value != ""
    ensures Scan(lines, pos) == Err(UnknownDocType(StartKind(lines[pos]).value))
  {
  }

  /** One step of the scan over a block that opens without error: its
      rendering comes first, then the rest of the scan. */
  lemma ScanBlock(lines: seq<string>, pos: nat, section: Section, next: nat)
    requires pos < |lines| && lines[pos] != [] && StartKind(lines[pos]).Some?
    requires OpenBlock(lines, pos, StartKind(lines[pos]).value) == Ok((section, next))
    ensures RenderResult(Scan(lines, pos)) == PrefixedText(RenderSection(section), RenderResult(Scan(lines, next)))
  {
    match Scan(lines, next)
    case Err(_) =>
    case Ok(rest) =>
      var sections := [section] + rest;
      assert Scan(lines, pos) == Ok(sections);
      assert sections[1..] == rest;
  }

  /** One step of the scan over a `code` block. */
  lemma ScanCodeBlock(lines: seq<string>, pos: nat, doc: string, end: nat, code: string, after: nat)
    requires pos < |lines| && lines[pos] != [] && StartKind(lines[pos]) == Some("code")
    requires DocSection(lines, pos + 1, "> ") == Ok((doc, end))
    requires CodeSection(lines, end + 1) == (code, after)
    ensures RenderResult(Scan(lines, pos))
            == PrefixedText(RenderSection(CodeBlock(code, doc)), RenderResult(Scan(lines, after)))
  {
    assert OpenBlock(lines, pos, "code") == Ok((CodeBlock(code, doc), after));
    ScanBlock(lines, pos, CodeBlock(code, doc), after);
  }

  /** One step of the scan over a block of the empty kind. */
  lemma ScanTextBlock(lines: seq<string>, pos: nat, doc: string, end: nat)
    requires pos < |lines| && lines[pos] != [] && StartKind(lines[pos]) == Some("")
    requires DocSection(lines, pos + 1, "") == Ok((doc, end))
    ensures RenderResult(Scan(lines, pos)) == PrefixedText(doc, RenderResult(Scan(lines, end)))
  {
    assert OpenBlock(lines, pos, "") == Ok((TextBlock(doc), end));
    ScanBlock(lines, pos, TextBlock(doc), end);
  }

  /** Gathers a block body, stopping on (and not consuming) its closing line. */
  method ParseDocSection(src: Lines, prepend: string) returns (r: Result<string, Error>)
    modifies src
    ensures match DocSection(src.lines, old(src.current), prepend)
            case Ok((doc, end)) => r == Ok(doc) && src.current == end
            case Err(e) => r == Err(e)
  {
    var doc := "";
    PrefixedNothing(DocSection(src.lines, src.current, prepend));
    while true
      invariant old(src.current) <= src.current
      invariant DocSection(src.lines, old(src.current), prepend)
                == Prefixed(doc, DocSection(src.lines, src.current, prepend))
      decreases if src.current <= |src.lines| then |src.lines| - src.current else 0
    {
      var line := src.Peek();
      if !Truthy(line) {
        return Err(UnexpectedEof);
      }
      if IsEndLine(line.value) {
        assert doc + "" == doc;
        break;
      }
      var next := src.Next();
      var parsed := ParseDocLine(next.value);
      if parsed.Err? {
        return Err(parsed.error);
      }
      PrefixedTwice(doc, prepend + parsed.value, DocSection(src.lines, src.current, prepend));
      doc := doc + (prepend + parsed.value);
    }
    r := Ok(doc);
  }

  /** Gathers the code after a block, stopping on (and not consuming) the
      next start line. The script reads the module-level cursor here, which
      is the one it passes in. */
  method ParseCodeSection(src: Lines) returns (code: string)
    modifies src
    ensures (code, src.current) == CodeSection(src.lines, old(src.current))
  {
    code := "";
    assert "" + CodeSection(src.lines, src.current).0 == CodeSection(src.lines, src.current).0;
    while true
      invariant old(src.current) <= src.current
      invariant var (rest, end) := CodeSection(src.lines, src.current);
                CodeSection(src.lines, old(src.current)) == (code + rest, end)
      decreases if src.current <= |src.lines| then |src.lines| - src.current else 0
    {
      var line := src.Peek();
      if !Truthy(line) || StartKind(line.value).Some? {
        assert code + "" == code;
        break;
      }
      var next := src.Next();
      assert code + (next.value + CodeSection(src.lines, src.current).0)
             == (code + next.value) + CodeSection(src.lines, src.current).0;
      code := code + next.value;
    }
  }

  /** One turn of the extraction loop: the next line is consumed, and
      either the output ends here with `piece` (the end of the input, or
      the first error), or `piece` is this line's rendering, ahead of the
      output from the new cursor on. */
  method NextRendering(src: Lines) returns (done: bool, piece: Result<string, Error>)
    modifies src
    ensures done ==> RenderResult(Scan(src.lines, old(src.current))) == piece
    ensures !done ==> old(src.current) < |src.lines| && old(src.current) < src.current
    ensures !done ==> piece.Ok? && RenderResult(Scan(src.lines, old(src.current)))
                                   == PrefixedText(piece.value, RenderResult(Scan(src.lines, src.current)))
  {
    ghost var pos := src.current;
    var line := src.Next();
    if !Truthy(line) {
      return true, Ok("");
    }
    var kind := StartKind(line.value);
    if kind.None? {
      ScanOtherLine(src.lines, pos);
      PrefixedTextNothing(RenderResult(Scan(src.lines, src.current)));
      return false, Ok("");
    } else if kind.value == "code" {
      var docSection := ParseDocSection(src, "> ");
      if docSection.Err? {
        ScanBlockFails(src.lines, pos, "code");
        return true, Err(docSection.error);
      }
      ghost var end := src.current;
      var _ := src.Next();
      var code := ParseCodeSection(src);
      var rendered := "```c\n" + Strip(code) + "\n" + "```\n" + docSection.value + "\n<br/>\n\n";
      assert RenderResult(Scan(src.lines, pos))
             == PrefixedText(rendered, RenderResult(Scan(src.lines, src.current))) by {
        ScanCodeBlock(src.lines, pos, docSection.value, end, code, src.current);
      }
      return false, Ok(rendered);
    } else if kind.value == "" {
      var docSection := ParseDocSection(src, "");
      if docSection.Err? {
        ScanBlockFails(src.lines, pos, "");
        return true, Err(docSection.error);
      }
      assert RenderResult(Scan(src.lines, pos))
             == PrefixedText(docSection.value, RenderResult(Scan(src.lines, src.current))) by {
        ScanTextBlock(src.lines, pos, docSection.value, src.current);
      }
      return false, Ok(docSection.value);
    } else {
      ScanUnknownKind(src.lines, pos);
      return true, Err(UnknownDocType(kind.value));
    }
  }

  /** The whole extraction: the rendered blocks, or the first error met. */
  method GenerateDocs(src: Lines) returns (r: Result<string, Error>)
    modifies src
    ensures r == RenderResult(Scan(src.lines, old(src.current)))
  {
    var doc := "";
    PrefixedTextNothing(RenderResult(Scan(src.lines, src.current)));
    while true
      invariant RenderResult(Scan(src.lines, old(src.current)))
                == PrefixedText(doc, RenderResult(Scan(src.lines, src.current)))
      decreases if src.current <= |src.lines| then |src.lines| - src.current + 1 else 0
    {
      ghost var tail := RenderResult(Scan(src.lines, src.current));
      var done, piece := NextRendering(src);
      if done {
        assert tail == piece;
        if piece.Err? {
          return Err(piece.error);
        }
        return Ok(doc + piece.value);
      }
      PrefixedTextTwice(doc, piece.value, RenderResult(Scan(src.lines, src.current)));
      doc := doc + piece.value;
    }
  }

  predicate NoEmptyLines(lines: seq<string>) {
    forall k :: 0 <= k < |lines| ==> lines[k] != []
  }

  /** A block body succeeds exactly when a closing line follows with only
      body lines before it. */
  lemma {:induction false} DocSectionSucceeds(lines: seq<string>, pos: nat, prepend: string)
    requires NoEmptyLines(lines) && pos <= |lines|
    ensures DocSection(lines, pos, prepend).Ok? <==>
              exists end :: pos <= end < |lines| && IsEndLine(lines[end]) && BodyLines(lines, pos, end)
    decreases |lines| - pos
  {
    if pos < |lines| && !IsEndLine(lines[pos]) && StartsWith(lines[pos], " *") {
      DocSectionSucceeds(lines, pos + 1, prepend);
      if exists end :: pos <= end < |lines| && IsEndLine(lines[end]) && BodyLines(lines, pos, end) {
        var end :| pos <= end < |lines| && IsEndLine(lines[end]) && BodyLines(lines, pos, end);
        assert BodyLines(lines, pos + 1, end);
      }
      if DocSection(lines, pos, prepend).Ok? {
        DocSectionText(lines, pos, prepend);
      }
    }
  }

  /** A successful block body stops on the first closing line: every line
      before it is a body line. */
  lemma {:induction false} DocSectionBody(lines: seq<string>, pos: nat, prepend: string)
    requires DocSection(lines, pos, prepend).Ok?
    ensures BodyLines(lines, pos, DocSection(lines, pos, prepend).value.1)
    decreases |lines| - pos
  {
    if !IsEndLine(lines[pos]) {
      DocSectionBody(lines, pos + 1, prepend);
      assert DocSection(lines, pos, prepend).value.1 == DocSection(lines, pos + 1, prepend).value.1;
    }
  }

  /** A successful block body stops on the first closing line, and its text
      is the normalised body lines before it, in order. */
  lemma {:induction false} DocSectionText(lines: seq<string>, pos: nat, prepend: string)
    requires DocSection(lines, pos, prepend).Ok?
    ensures BodyLines(lines, pos, DocSection(lines, pos, prepend).value.1)
    ensures DocSection(lines, pos, prepend).value.0
            == BodyText(lines[pos..DocSection(lines, pos, prepend).value.1], prepend)
    decreases |lines| - pos
  {
    if !IsEndLine(lines[pos]) {
      var text := ParseDocLine(lines[pos]).value;
      var rest := DocSection(lines, pos + 1, prepend);
      assert DocSection(lines, pos, prepend).value == (prepend + text + rest.value.0, rest.value.1);
      DocSectionText(lines, pos + 1, prepend);
      var end := rest.value.1;
      assert lines[pos..end][1..] == lines[pos + 1..end];
      assert BodyText(lines[pos..end], prepend) == prepend + text + BodyText(lines[pos + 1..end], prepend);
    }
  }

  /** An unterminated block: the end of the input is reported exactly when
      every line left is a body line. */
  lemma {:induction false} DocSectionUnterminated(lines: seq<string>, pos: nat, prepend: string)
    requires NoEmptyLines(lines) && pos <= |lines|
    ensures DocSection(lines, pos, prepend) == Err(UnexpectedEof) <==> BodyLines(lines, pos, |lines|)
    decreases |lines| - pos
  {
    if pos < |lines| && !IsEndLine(lines[pos]) && StartsWith(lines[pos], " *") {
      DocSectionUnterminated(lines, pos + 1, prepend);
    }
  }

  /** Any other failure names the first line of the body that does not
      start with ` *`, without its last character. */
  lemma {:induction false} DocSectionMalformed(lines: seq<string>, pos: nat, prepend: string)
    requires NoEmptyLines(lines) && pos <= |lines|
    requires DocSection(lines, pos, prepend).Err? && DocSection(lines, pos, prepend) != Err(UnexpectedEof)
    ensures exists k :: pos <= k < |lines| && BodyLines(lines, pos, k) && !StartsWith(lines[k], " *")
                        && DocSection(lines, pos, prepend) == Err(UnexpectedLine(lines[k][..|lines[k]| - 1]))
    decreases |lines| - pos
  {
    if StartsWith(lines[pos], " *") {
      DocSectionMalformed(lines, pos + 1, prepend);
      var k :| pos + 1 <= k < |lines| && BodyLines(lines, pos + 1, k) && !StartsWith(lines[k], " *")
               && DocSection(lines, pos + 1, prepend) == Err(UnexpectedLine(lines[k][..|lines[k]| - 1]));
      assert BodyLines(lines, pos, k);
    } else {
      assert BodyLines(lines, pos, pos);
    }
  }

  /** How many lines of `lines` open a block of the given kind. */
  function KindCount(lines: seq<string>, kind: string): nat {
    if lines == [] then 0
    else (if StartKind(lines[0]) == Some(kind) then 1 else 0) + KindCount(lines[1..], kind)
  }

  /** How many lines of `lines` open a block of any kind. */
  function StartCount(lines: seq<string>): nat {
    if lines == [] then 0
    else (if StartKind(lines[0]).Some? then 1 else 0) + StartCount(lines[1..])
  }

  function CodeBlockCount(sections: seq<Section>): nat {
    if sections == [] then 0
    else (if sections[0].CodeBlock? then 1 else 0) + CodeBlockCount(sections[1..])
  }

  function TextBlockCount(sections: seq<Section>): nat {
    if sections == [] then 0
    else (if sections[0].TextBlock? then 1 else 0) + TextBlockCount(sections[1..])
  }

  /** Lines that open no block change no count. */
  lemma {:induction false} CountsSkip(lines: seq<string>, from: nat, to: nat)
    requires from <= to <= |lines|
    requires forall k :: from <= k < to ==> StartKind(lines[k]).None?
    ensures KindCount(lines[from..], "code") == KindCount(lines[to..], "code")
    ensures KindCount(lines[from..], "") == KindCount(lines[to..], "")
    ensures StartCount(lines[from..]) == StartCount(lines[to..])
    decreases |lines| - from
  {
    if from < to {
      assert lines[from..][1..] == lines[from + 1..];
      CountsSkip(lines, from + 1, to);
    }
  }

  /** The lines a block spans after its start line, up to where the scan
      resumes, open no block: they are body lines, the closing line and
      code that stopped before the next start line. */
  lemma {:induction false} OpenBlockSpan(lines: seq<string>, pos: nat, kind: string)
    requires NoEmptyLines(lines) && pos < |lines|
    requires OpenBlock(lines, pos, kind).Ok?
    ensures kind == "code" ==> OpenBlock(lines, pos, kind).value.0.CodeBlock?
    ensures kind == "" ==> OpenBlock(lines, pos, kind).value.0.TextBlock?
    ensures forall k :: pos < k < OpenBlock(lines, pos, kind).value.1 ==> StartKind(lines[k]).None?
  {
    var prepend := if kind == "code" then "> " else "";
    var doc := DocSection(lines, pos + 1, prepend);
    assert doc.Ok?;
    var end := doc.value.1;
    DocSectionBody(lines, pos + 1, prepend);
    forall k | pos < k <= end
      ensures StartKind(lines[k]).None?
    {
      assert StartsWith(lines[k], " *") || IsEndLine(lines[k]);
      assert lines[k][0] == lines[k][..2][0];
      BodyLineOpensNoBlock(lines[k]);
    }
    if kind == "code" {
      CodeSectionText(lines, end + 1);
    }
  }

  /** Every line that opens a block is reached by the scan, so a successful
      extraction renders exactly one fenced code span per `code` line and
      one paragraph per line of the empty kind, and meets no other kind. */
  lemma {:induction false} OneSectionPerStartLine(lines: seq<string>, pos: nat)
    requires NoEmptyLines(lines) && pos <= |lines|
    requires Scan(lines, pos).Ok?
    ensures CodeBlockCount(Scan(lines, pos).value) == KindCount(lines[pos..], "code")
    ensures TextBlockCount(Scan(lines, pos).value) == KindCount(lines[pos..], "")
    ensures |Scan(lines, pos).value| == StartCount(lines[pos..])
    decreases |lines| - pos
  {
    if pos < |lines| {
      assert lines[pos..][1..] == lines[pos + 1..];
      var kind := StartKind(lines[pos]);
      if kind.None? {
        OneSectionPerStartLine(lines, pos + 1);
      } else {
        var block := OpenBlock(lines, pos, kind.value);
        assert block.Ok?;
        var section, next := block.value.0, block.value.1;
        assert Scan(lines, pos).value == [section] + Scan(lines, next).value;
        OpenBlockSpan(lines, pos, kind.value);
        CountsSkip(lines, pos + 1, next);
        OneSectionPerStartLine(lines, next);
        assert ([section] + Scan(lines, next).value)[1..] == Scan(lines, next).value;
      }
    }
  }
}

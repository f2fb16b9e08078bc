/** The short extractor: the same block markers as the strict one, but body
    lines are taken leniently, an unterminated block ends quietly at the
    end of the input, kinds are `code` and `text`, and each block renders
    differently. The only failure is a block of another kind. */
module MiniDocGen {
  import opened TextUtil
  import opened DocSyntax
  import DocGenerator

  /** The `ValueError` raised for a block of an unknown kind. */
  datatype Error = ValueError(message: string)

  /** A forward-only cursor over the lines of the input. */
  class T {
    const txt: seq<string>
    var curr: nat

    constructor (text: string)
      ensures txt == SplitLines(text) && curr == 0
    {
      curr := 0;
      txt := SplitLines(text);
    }

    /** The line under the cursor; being a function, it cannot move it. */
    function Peek(): (r: Option<string>)
      reads this
      ensures r.Some? <==> curr < |txt|
      ensures r.Some? ==> r.value == txt[curr]
    {
      LineAt(txt, curr)
    }

    /** Moves one line on, returning the line that was under the cursor;
        past the end it still moves, and returns nothing. */
    method Next() returns (r: Option<string>)
      modifies this
      ensures curr == old(curr) + 1
      ensures r == LineAt(txt, old(curr))
    {
      curr := curr + 1;
      r := LineAt(txt, curr - 1);
    }
  }

  // A block ends on a line starting ` */`, and also on a missing or empty
  // line, so the end of the input closes a block too.
  predicate DEnd(l: Option<string>)
    ensures l.None? ==> DEnd(l)
    ensures l.Some? && StartsWith(l.value, " * ") ==> !DEnd(l)
  {
    !Truthy(l) || IsEndLine(l.value)
  }

  /** The texts `^ ?\*? ?` can match: an optional space, then an
      optional star, then an optional space. */
  predicate IsMarker(p: string) {
    p == [] || p == " " || p == "*" || p == "  " || p == " *" || p == "* " || p == " * "
  }

  /** How much of `l` the optional ` `, `*` and ` ` of `^ ?\*? ?` take:
      each part is taken when the next character is the one it matches. */
  function MarkerLength(l: string): (n: nat)
    ensures n <= 3 && n <= |l|
    ensures IsMarker(l[..n])
  {
    var a := if l != [] && l[0] == ' ' then 1 else 0;
    var b := if a < |l| && l[a] == '*' then a + 1 else a;
    var n := if b < |l| && l[b] == ' ' then b + 1 else b;
    assert l[..n] == l[..a] + l[a..b] + l[b..n];
    assert l[..a] == [] || l[..a] == " ";
    assert l[a..b] == [] || l[a..b] == "*";
    assert l[b..n] == [] || l[b..n] == " ";
    n
  }

  /** Taking each part whenever it can gives the longest marker that starts
      the line: no longer prefix of `l` is one. */
  lemma MarkerLengthLongest(l: string)
    ensures forall m :: MarkerLength(l) < m <= |l| ==> !IsMarker(l[..m])
  {
    forall m | MarkerLength(l) < m <= |l|
      ensures !IsMarker(l[..m])
    {
      if m <= 3 {
        assert l[..m][..m - 1] == l[..m - 1];
      }
    }
  }

  /** One body line, taken leniently: the marker is dropped and the rest of
      the line, up to its newline, is kept with a newline after it. No line
      is refused. */
  function DLine(l: string): (r: string)
    ensures |r| >= 1 && r[|r| - 1] == '\n'
  {
    LineContent(l[MarkerLength(l)..]) + "\n"
  }

  /** What `DLine` keeps is exactly what follows the longest marker up to
      the end of the line. */
  lemma DLineDropsMarker(l: string)
    ensures var r := DLine(l);
            ContentAfter(l, l[..MarkerLength(l)], r[..|r| - 1])
  {
    var i := MarkerLength(l);
    ContentAfterCut(l, i);
    assert DLine(l)[..|DLine(l)| - 1] == LineContent(l[i..]);
  }

  /** The body of a block opened just before `pos`: the lenient text of its
      lines, and the index after the line that ended it (the closing line,
      or the missing line past the end, which is consumed all the same). */
  function DIter(txt: seq<string>, pos: nat): (r: (string, nat))
    ensures pos < r.1 && (pos <= |txt| ==> r.1 <= |txt| + 1)
    ensures DEnd(LineAt(txt, r.1 - 1))
    ensures forall k :: pos <= k < r.1 - 1 ==> !DEnd(LineAt(txt, k))
    decreases if pos <= |txt| then |txt| - pos else 0
  {
    if DEnd(LineAt(txt, pos)) then ("", pos + 1)
    else
      var (rest, end) := DIter(txt, pos + 1);
      (DLine(txt[pos]) + rest, end)
  }

  /** One step of gathering a body: when `d` has been gathered from
      `start` up to `pos`, an ending line at `pos` completes the body as
      `d`, and any other line adds its lenient text to `d`. */
  lemma DIterJoinStep(txt: seq<string>, start: nat, pos: nat, d: string)
    requires DIter(txt, start) == (d + DIter(txt, pos).0, DIter(txt, pos).1)
    ensures DEnd(LineAt(txt, pos)) ==> DIter(txt, start) == (d, pos + 1)
    ensures !DEnd(LineAt(txt, pos)) ==>
              DIter(txt, start) == ((d + DLine(txt[pos])) + DIter(txt, pos + 1).0, DIter(txt, pos + 1).1)
  {
    if DEnd(LineAt(txt, pos)) {
      assert d + "" == d;
    } else {
      var rest := DIter(txt, pos + 1).0;
      assert d + (DLine(txt[pos]) + rest) == (d + DLine(txt[pos])) + rest;
    }
  }

  /** The lenient text of a run of body lines, one `DLine` after another. */
  function LenientText(body: seq<string>): (r: string)
    ensures body == [] ==> r == []
  {
    if body == [] then "" else DLine(body[0]) + LenientText(body[1..])
  }

  /** The text `DIter` gathers is the lenient text of exactly the lines
      between `pos` and the line that ended the block. */
  lemma {:induction false} DIterText(txt: seq<string>, pos: nat)
    requires pos <= |txt|
    ensures pos <= DIter(txt, pos).1 - 1 <= |txt|
    ensures DIter(txt, pos).0 == LenientText(txt[pos..DIter(txt, pos).1 - 1])
    decreases |txt| - pos
  {
    var (d, end) := DIter(txt, pos);
    if !DEnd(LineAt(txt, pos)) {
      DIterText(txt, pos + 1);
      assert txt[pos..end - 1][1..] == txt[pos + 1..end - 1];
    }
  }

  /** What a start line of kind `kind` at `pos` yields, and where the scan
      resumes. The body is read first, then the code after it. */
  function Block(txt: seq<string>, pos: nat, kind: string): (r: Result<(string, nat), Error>)
    requires pos < |txt|
    ensures r.Ok? ==> pos < r.value.1 <= |txt| + 1
    ensures r.Err? <==> kind != "code" && kind != "text"
    ensures r.Err? ==> r.error == ValueError("unknown doc type found: " + kind)
  {
    if kind == "code" then
      var (d, end) := DIter(txt, pos + 1);
      var (s, after) := CodeSection(txt, end);
      Ok(("\n```c\n" + Strip(s) + "\n```\n\n" + d + "\n----\n", after))
    else if kind == "text" then
      var (d, end) := DIter(txt, pos + 1);
      Ok(("\n" + d, end))
    else Err(ValueError("unknown doc type found: " + kind))
  }

  /** The whole output from `pos` on: the pieces of every block in order,
      or the error of the first block of an unknown kind. */
  function TIter(txt: seq<string>, pos: nat): (r: Result<string, Error>)
    ensures r.Err? ==> StartsWith(r.error.message, "unknown doc type found: ")
    decreases if pos <= |txt| then |txt| - pos + 1 else 0
  {
    if !Truthy(LineAt(txt, pos)) then Ok("")
    else
      match StartKind(txt[pos])
      case None => TIter(txt, pos + 1)
      case Some(kind) =>
        match Block(txt, pos, kind)
        case Err(e) => Err(e)
        case Ok((piece, next)) => PrefixedText(piece, TIter(txt, next))
  }

  /** Gathers the body of a block, consuming the line that ends it. */
  method JoinDIter(txt: T) returns (d: string)
    modifies txt
    ensures (d, txt.curr) == DIter(txt.txt, old(txt.curr))
  {
    d := "";
    assert "" + DIter(txt.txt, txt.curr).0 == DIter(txt.txt, txt.curr).0;
    while true
      invariant DIter(txt.txt, old(txt.curr)) == (d + DIter(txt.txt, txt.curr).0, DIter(txt.txt, txt.curr).1)
      decreases if txt.curr <= |txt.txt| then |txt.txt| - txt.curr + 1 else 0
    {
      DIterJoinStep(txt.txt, old(txt.curr), txt.curr, d);
      var l := txt.Next();
      if DEnd(l) {
        break;
      }
      d := d + DLine(l.value);
    }
  }

  /** Gathers the code after a block, stopping on (and not consuming) the
      next start line. */
  method JoinSIter(txt: T) returns (s: string)
    modifies txt
    ensures (s, txt.curr) == CodeSection(txt.txt, old(txt.curr))
  {
    s := "";
    assert "" + CodeSection(txt.txt, txt.curr).0 == CodeSection(txt.txt, txt.curr).0;
    while true
      invariant old(txt.curr) <= txt.curr
      invariant var (rest, end) := CodeSection(txt.txt, txt.curr);
                CodeSection(txt.txt, old(txt.curr)) == (s + rest, end)
      decreases if txt.curr <= |txt.txt| then |txt.txt| - txt.curr else 0
    {
      var l := txt.Peek();
      if !Truthy(l) || StartKind(l.value).Some? {
        assert s + "" == s;
        break;
      }
      var next := txt.Next();
      assert s + (next.value + CodeSection(txt.txt, txt.curr).0)
             == (s + next.value) + CodeSection(txt.txt, txt.curr).0;
      s := s + next.value;
    }
  }

  /** The piece for a block whose start line of kind `kind` was just
      consumed, with the cursor left where the scan resumes; or the error
      for a kind that is neither `code` nor `text`. */
  method JoinBlock(txt: T, kind: string) returns (r: Result<string, Error>)
    requires 1 <= txt.curr <= |txt.txt|
    modifies txt
    ensures Block(txt.txt, old(txt.curr) - 1, kind)
            == if r.Ok? then Ok((r.value, txt.curr)) else Err(r.error)
  {
    if kind == "code" {
      var d := JoinDIter(txt);
      var s := JoinSIter(txt);
      r := Ok("\n```c\n" + Strip(s) + "\n```\n\n" + d + "\n----\n");
    } else if kind == "text" {
      var d := JoinDIter(txt);
      r := Ok("\n" + d);
    } else {
      r := Err(ValueError("unknown doc type found: " + kind));
    }
  }

  /** A missing or empty line ends the output. */
  lemma TIterEnd(txt: seq<string>, pos: nat)
    requires !Truthy(LineAt(txt, pos))
    ensures TIter(txt, pos) == Ok("")
  {
  }

  /** A line that opens no block is passed over. */
  lemma TIterOtherLine(txt: seq<string>, pos: nat)
    requires pos < |txt| && txt[pos] != [] && StartKind(txt[pos]).None?
    ensures TIter(txt, pos) == TIter(txt, pos + 1)
  {
  }

  /** A block yields its piece before the rest of the output. */
  lemma TIterBlock(txt: seq<string>, pos: nat, piece: string, next: nat)
    requires pos < |txt| && txt[pos] != [] && StartKind(txt[pos]).Some?
    requires Block(txt, pos, StartKind(txt[pos]).value) == Ok((piece, next))
    ensures TIter(txt, pos) == PrefixedText(piece, TIter(txt, next))
  {
  }

  /** A `code` block yields its code in a C fence, then its body, then a
      rule, and the output resumes at the next start line after the code. */
  lemma TIterCodeBlock(txt: seq<string>, pos: nat, doc: string, end: nat, code: string, after: nat)
    requires pos < |txt| && txt[pos] != [] && StartKind(txt[pos]) == Some("code")
    requires DIter(txt, pos + 1) == (doc, end) && CodeSection(txt, end) == (code, after)
    ensures TIter(txt, pos)
            == PrefixedText("\n```c\n" + Strip(code) + "\n```\n\n" + doc + "\n----\n", TIter(txt, after))
  {
    TIterBlock(txt, pos, "\n```c\n" + Strip(code) + "\n```\n\n" + doc + "\n----\n", after);
  }

  /** A `text` block yields a newline and its body, and the output resumes
      just after the line that ended it. */
  lemma TIterTextBlock(txt: seq<string>, pos: nat, doc: string, end: nat)
    requires pos < |txt| && txt[pos] != [] && StartKind(txt[pos]) == Some("text")
    requires DIter(txt, pos + 1) == (doc, end)
    ensures TIter(txt, pos) == PrefixedText("\n" + doc, TIter(txt, end))
  {
    TIterBlock(txt, pos, "\n" + doc, end);
  }

  /** A block of an unknown kind stops the output with its error. */
  lemma TIterUnknownKind(txt: seq<string>, pos: nat)
    requires pos < |txt| && txt[pos] != [] && StartKind(txt[pos]).Some?
    requires Block(txt, pos, StartKind(txt[pos]).value).Err?
    ensures TIter(txt, pos) == Err(Block(txt, pos, StartKind(txt[pos]).value).error)
  {
  }

  /** One turn of the extraction loop: the next line is consumed, and
      either the output ends here with `piece` (the end of the input, or
      the error of a block of an unknown kind), or `piece` is this line's
      contribution, ahead of the output from the new cursor on. */
  method NextPiece(txt: T) returns (done: bool, piece: Result<string, Error>)
    modifies txt
    ensures done ==> TIter(txt.txt, old(txt.curr)) == piece
    ensures !done ==> old(txt.curr) < |txt.txt| && old(txt.curr) < txt.curr
    ensures !done ==> piece.Ok? && TIter(txt.txt, old(txt.curr)) == PrefixedText(piece.value, TIter(txt.txt, txt.curr))
  {
    ghost var pos := txt.curr;
    var l := txt.Next();
    if !Truthy(l) {
      TIterEnd(txt.txt, pos);
      return true, Ok("");
    }
    var start := StartKind(l.value);
    if start.None? {
      TIterOtherLine(txt.txt, pos);
      PrefixedTextNothing(TIter(txt.txt, txt.curr));
      return false, Ok("");
    }
    piece := JoinBlock(txt, start.value);
    if piece.Err? {
      TIterUnknownKind(txt.txt, pos);
      return true, piece;
    }
    TIterBlock(txt.txt, pos, piece.value, txt.curr);
    done := false;
  }

  /** The whole extraction: every piece joined, or the first error met. */
  method JoinTIter(txt: T) returns (r: Result<string, Error>)
    modifies txt
    ensures r == TIter(txt.txt, old(txt.curr))
  {
    var out := "";
    PrefixedTextNothing(TIter(txt.txt, txt.curr));
    while true
      invariant TIter(txt.txt, old(txt.curr)) == PrefixedText(out, TIter(txt.txt, txt.curr))
      decreases if txt.curr <= |txt.txt| then |txt.txt| - txt.curr + 1 else 0
    {
      ghost var tail := TIter(txt.txt, txt.curr);
      var done, piece := NextPiece(txt);
      if done {
        assert tail == piece;
        if piece.Err? {
          return Err(piece.error);
        }
        return Ok(out + piece.value);
      }
      PrefixedTextTwice(out, piece.value, TIter(txt.txt, txt.curr));
      out := out + piece.value;
    }
  }

  /** Where the strict extractor accepts a body line, this one takes the
      same text from it. */
  lemma DLineAgreesWithStrict(l: string)
    requires DocGenerator.ParseDocLine(l).Ok?
    ensures DLine(l) == DocGenerator.ParseDocLine(l).value
  {
    assert l[..2] == " *";
    assert l[0] == ' ' && l[1] == '*';
    if |l| >= 3 && l[2] == ' ' {
      assert l[..3] == " * ";
    }
  }

  /** A line without a leading marker, which the strict extractor refuses,
      is kept whole up to its newline. */
  lemma DLineKeepsUnmarkedLine(l: string)
    requires l == [] || (l[0] != ' ' && l[0] != '*')
    ensures DLine(l) == LineContent(l) + "\n"
  {
    assert l[0..] == l;
  }

  /** Where the strict extractor gathers a body of the empty kind, this one
      gathers the same text, and also consumes the closing line. */
  lemma {:induction false} DIterAgreesWithStrict(txt: seq<string>, pos: nat)
    requires DocGenerator.DocSection(txt, pos, "").Ok?
    ensures DIter(txt, pos)
            == (DocGenerator.DocSection(txt, pos, "").value.0, DocGenerator.DocSection(txt, pos, "").value.1 + 1)
    decreases |txt| - pos
  {
    if !IsEndLine(txt[pos]) {
      DLineAgreesWithStrict(txt[pos]);
      DIterAgreesWithStrict(txt, pos + 1);
      assert "" + DLine(txt[pos]) == DLine(txt[pos]);
    }
  }

  /** A block with no closing line runs quietly to the end of the input,
      and only such a block does. */
  lemma DIterUnterminated(txt: seq<string>, pos: nat)
    requires DocGenerator.NoEmptyLines(txt) && pos <= |txt|
    ensures DIter(txt, pos).1 == |txt| + 1 <==> forall k :: pos <= k < |txt| ==> !IsEndLine(txt[k])
  {
    var end := DIter(txt, pos).1;
    if end <= |txt| {
      assert DEnd(LineAt(txt, end - 1)) && txt[end - 1] != [];
      assert IsEndLine(txt[end - 1]);
    } else {
      forall k | pos <= k < |txt|
        ensures !IsEndLine(txt[k])
      {
        assert !DEnd(LineAt(txt, k));
      }
    }
  }

  /** Where the strict extractor stops at the end of the input with an
      error, this one ends the block there and goes on. */
  lemma UnterminatedBlockEndsQuietly(txt: seq<string>, pos: nat, prepend: string)
    requires DocGenerator.NoEmptyLines(txt) && pos <= |txt|
    requires DocGenerator.DocSection(txt, pos, prepend) == Err(DocGenerator.UnexpectedEof)
    ensures DIter(txt, pos).1 == |txt| + 1
  {
    DocGenerator.DocSectionUnterminated(txt, pos, prepend);
    DIterUnterminated(txt, pos);
  }

  /** The output fails only on a block of an unknown kind, naming it. */
  lemma {:induction false} TIterFailsOnUnknownKind(txt: seq<string>, pos: nat)
    requires TIter(txt, pos).Err?
    ensures exists k :: pos <= k < |txt| && StartKind(txt[k]).Some?
              && StartKind(txt[k]).value != "code" && StartKind(txt[k]).value != "text"
              && TIter(txt, pos).error == ValueError("unknown doc type found: " + StartKind(txt[k]).value)
    decreases |txt| - pos
  {
    var kind := StartKind(txt[pos]);
    if kind.None? {
      TIterFailsOnUnknownKind(txt, pos + 1);
    } else if Block(txt, pos, kind.value).Ok? {
      var next := Block(txt, pos, kind.value).value.1;
      assert TIter(txt, pos) == PrefixedText(Block(txt, pos, kind.value).value.0, TIter(txt, next));
      TIterFailsOnUnknownKind(txt, next);
    } else {
      assert pos <= pos < |txt|;
    }
  }

  // A bare `/**` line, which the strict extractor renders as a plain
  // paragraph, is refused here: its kind is empty.
  lemma EmptyKindRefused()
    ensures TIter(["/**\n", " */\n"], 0) == Err(ValueError("unknown doc type found: "))
    ensures DocGenerator.Scan(["/**\n", " */\n"], 0) == Ok([DocGenerator.TextBlock("")])
  {
    var txt := ["/**\n", " */\n"];
    assert txt[0][..3] == "/**" && txt[0][3..] == "\n";
    assert TrimLeft("\n") == [];
    assert StartKind(txt[0]) == Some("");
    assert txt[1][..3] == " */" && txt[1][0] == ' ';
    BodyLineOpensNoBlock(txt[1]);
    assert DocGenerator.DocSection(txt, 1, "") == Ok(("", 1));
    assert DocGenerator.OpenBlock(txt, 0, "") == Ok((DocGenerator.TextBlock(""), 1));
    assert DocGenerator.Scan(txt, 2) == Ok([]);
    assert DocGenerator.Scan(txt, 1) == Ok([]);
    assert [DocGenerator.TextBlock("")] + [] == [DocGenerator.TextBlock("")];
    assert "unknown doc type found: " + "" == "unknown doc type found: ";
    assert Block(txt, 0, "") == Err(ValueError("unknown doc type found: "));
  }

  // The kind of `/** text` is `text`.
  lemma TextStartLine()
    ensures StartKind("/** text\n") == Some("text")
  {
    var line := "/** text\n";
    assert line[..3] == "/**" && line[3..] == " text\n";
    assert " text\n"[1..] == "text\n";
    assert TrimLeft(" text\n") == "text\n";
    assert "text\n"[1..] == "ext\n" && "ext\n"[1..] == "xt\n" && "xt\n"[1..] == "t\n" && "t\n"[1..] == "\n";
    assert WordPrefix("\n") == [];
    assert WordPrefix("text\n") == "text";
  }

  /** The body ` * Hi` is gathered as `Hi` and a newline. */
  lemma TextBodyGathered()
    ensures DIter(["/** text\n", " * Hi\n", " */\n"], 1) == ("Hi\n", 3)
  {
    var txt := ["/** text\n", " * Hi\n", " */\n"];
    assert MarkerLength(txt[1]) == 3 && txt[1][3..] == "Hi\n";
    assert "Hi\n"[1..] == "i\n" && "i\n"[1..] == "\n";
    assert DLine(txt[1]) == "Hi\n";
    assert txt[1][..3] != " */" && txt[2][..3] == " */";
    assert DIter(txt, 2) == ("", 3);
    assert "Hi\n" + "" == "Hi\n";
  }

  /** The one-line `text` block yields a newline and its text, and the
      output resumes after its closing line. */
  lemma TextBlockPiece(txt: seq<string>)
    requires txt == ["/** text\n", " * Hi\n", " */\n"]
    ensures TIter(txt, 0) == PrefixedText("\n" + "Hi\n", TIter(txt, 3))
  {
    TextStartLine();
    TextBodyGathered();
    TIterTextBlock(txt, 0, "Hi\n", 3);
  }

  /** A one-line `text` block is rendered after a blank line. */
  lemma TextKindAccepted()
    ensures TIter(["/** text\n", " * Hi\n", " */\n"], 0) == Ok("\n" + "Hi\n")
  {
    var txt := ["/** text\n", " * Hi\n", " */\n"];
    TextBlockPiece(txt);
    TIterEnd(txt, 3);
    assert ("\n" + "Hi\n") + "" == "\n" + "Hi\n";
  }

  /** The strict extractor refuses the same input: `text` is not one of
      its kinds. */
  lemma TextKindRefusedByStrict()
    ensures DocGenerator.Scan(["/** text\n", " * Hi\n", " */\n"], 0) == Err(DocGenerator.UnknownDocType("text"))
  {
    var txt := ["/** text\n", " * Hi\n", " */\n"];
    TextStartLine();
    assert DocGenerator.OpenBlock(txt, 0, "text") == Err(DocGenerator.UnknownDocType("text"));
  }
}
